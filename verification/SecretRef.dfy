/** The secret-reference grammar (internal/secretref/reference.go):
    ${secret[@provider]:key[:field][:version]}. */
module SecretRef {
  import opened Values

  datatype Reference = Reference(provider: string, key: string, field: string, version: string)

  const OPENER := "${secret"

  predicate Delimiter(c: char) { c == ':' || c == '}' }

  /** [^}:]* */
  predicate Component(s: string) { forall i :: 0 <= i < |s| ==> !Delimiter(s[i]) }

  predicate AliasStart(c: char) { 'A' <= c <= 'Z' || 'a' <= c <= 'z' || '0' <= c <= '9' }

  predicate AliasChar(c: char) { AliasStart(c) || c == '_' || c == '.' || c == '-' }

  predicate AliasChars(s: string) { forall i :: 0 <= i < |s| ==> AliasChar(s[i]) }

  /** [A-Za-z0-9][A-Za-z0-9_.-]* */
  predicate Alias(s: string) { s != "" && AliasStart(s[0]) && AliasChars(s) }

  /** Validate: the reference can be written in the grammar. */
  predicate Valid(r: Reference) {
    && (r.provider != "" ==> Alias(r.provider))
    && r.key != "" && Component(r.key) && Component(r.field) && Component(r.version)
  }

  /** How many of the groups after the key are written. */
  predicate Form(r: Reference, form: nat) {
    && form <= 2
    && (form == 0 ==> r.field == "" && r.version == "")
    && (form == 1 ==> r.version == "")
    && (form == 2 ==> r.version != "")
  }

  function Suffix(r: Reference, form: nat): string {
    if form == 0 then "}"
    else if form == 1 then ":" + (r.field + "}")
    else ":" + (r.field + (":" + (r.version + "}")))
  }

  function Spell(r: Reference, form: nat): string {
    OPENER + ((if r.provider == "" then "" else "@" + r.provider) + (":" + (r.key + Suffix(r, form))))
  }

  /** String: the empty field slot is written only in front of a version. */
  function Print(r: Reference): string {
    Spell(r, if r.version != "" then 2 else if r.field != "" then 1 else 0)
  }

  /** The regular expression read as a grammar: the texts it matches, each with
      the groups it captures. The optional field group is preferred over the
      optional version group, so a single trailing component is a field. */
  predicate Derives(text: string, r: Reference) {
    Valid(r) && exists form | 0 <= form <= 2 :: Form(r, form) && text == Spell(r, form)
  }

  datatype Cut = Cut(head: string, tail: string)

  /** Splits s in front of its first delimiter. */
  function CutAt(s: string): (c: Cut)
    ensures s == c.head + c.tail && Component(c.head) && (c.tail == "" || Delimiter(c.tail[0]))
  {
    if s == "" || Delimiter(s[0]) then Cut("", s)
    else
      var c := CutAt(s[1..]);
      Cut([s[0]] + c.head, c.tail)
  }

  /** Splits s after its longest prefix of alias characters. */
  function AliasCut(s: string): (c: Cut)
    ensures s == c.head + c.tail && AliasChars(c.head) && (c.tail == "" || !AliasChar(c.tail[0]))
  {
    if s == "" || !AliasChar(s[0]) then Cut("", s)
    else
      var c := AliasCut(s[1..]);
      Cut([s[0]] + c.head, c.tail)
  }

  /** A match at the start of a text, and the text behind it. */
  datatype Match = Match(ref: Reference, rest: string)

  function AfterField(s: string, provider: string, key: string, field: string): Option<Match> {
    if s == "" then None
    else if s[0] == '}' then Some(Match(Reference(provider, key, field, ""), s[1..]))
    else
      var c := CutAt(s[1..]);
      if s[0] != ':' || c.head == "" || c.tail == "" || c.tail[0] != '}' then None
      else Some(Match(Reference(provider, key, field, c.head), c.tail[1..]))
  }

  function AfterKey(s: string, provider: string, key: string): Option<Match> {
    if s == "" then None
    else if s[0] == '}' then Some(Match(Reference(provider, key, "", ""), s[1..]))
    else if s[0] != ':' then None
    else
      var c := CutAt(s[1..]);
      AfterField(c.tail, provider, key, c.head)
  }

  function AfterProvider(s: string, provider: string): Option<Match> {
    if s == "" || s[0] != ':' then None
    else
      var c := CutAt(s[1..]);
      if c.head == "" then None else AfterKey(c.tail, provider, c.head)
  }

  /** The match of the pattern at the first character of s, if there is one. */
  function MatchAt(s: string): Option<Match> {
    if !(OPENER <= s) then None
    else
      var t := s[|OPENER|..];
      if t == "" || t[0] != '@' then AfterProvider(t, "")
      else
        var c := AliasCut(t[1..]);
        if Alias(c.head) then AfterProvider(c.tail, c.head) else None
  }

  lemma {:induction false} CutOf(a: string, rest: string)
    requires Component(a) && (rest == "" || Delimiter(rest[0]))
    ensures CutAt(a + rest) == Cut(a, rest)
  {
    if a != "" {
      assert (a + rest)[1..] == a[1..] + rest;
      CutOf(a[1..], rest);
      assert a == [a[0]] + a[1..];
    } else {
      assert a + rest == rest;
    }
  }

  lemma {:induction false} AliasCutOf(a: string, rest: string)
    requires AliasChars(a) && (rest == "" || !AliasChar(rest[0]))
    ensures AliasCut(a + rest) == Cut(a, rest)
  {
    if a != "" {
      assert (a + rest)[1..] == a[1..] + rest;
      AliasCutOf(a[1..], rest);
      assert a == [a[0]] + a[1..];
    } else {
      assert a + rest == rest;
    }
  }

  lemma AfterFieldIff(s: string, r: Reference, rest: string)
    ensures AfterField(s, r.provider, r.key, r.field) == Some(Match(r, rest)) <==>
            (r.version == "" && s == "}" + rest) ||
            (r.version != "" && Component(r.version) && s == ":" + (r.version + ("}" + rest)))
  {
    if AfterField(s, r.provider, r.key, r.field) == Some(Match(r, rest)) {
      AfterFieldSound(s, r, rest);
    }
    if r.version == "" && s == "}" + rest {
      assert s[1..] == rest;
    }
    if r.version != "" && Component(r.version) && s == ":" + (r.version + ("}" + rest)) {
      AfterFieldComplete(s, r, rest);
    }
  }

  lemma AfterFieldSound(s: string, r: Reference, rest: string)
    requires AfterField(s, r.provider, r.key, r.field) == Some(Match(r, rest))
    ensures (r.version == "" && s == "}" + rest) ||
            (r.version != "" && Component(r.version) && s == ":" + (r.version + ("}" + rest)))
  {
    assert s == [s[0]] + s[1..];
    if s[0] == ':' {
      var c := CutAt(s[1..]);
      assert c.tail == [c.tail[0]] + c.tail[1..];
    }
  }

  lemma AfterFieldComplete(s: string, r: Reference, rest: string)
    requires r.version != "" && Component(r.version) && s == ":" + (r.version + ("}" + rest))
    ensures AfterField(s, r.provider, r.key, r.field) == Some(Match(r, rest))
  {
    CutOf(r.version, "}" + rest);
    assert s[1..] == r.version + ("}" + rest);
    assert ("}" + rest)[1..] == rest;
  }

  /** What may follow the key. */
  predicate KeyTail(s: string, r: Reference, rest: string) {
    || (r.field == "" && r.version == "" && s == "}" + rest)
    || (Component(r.field) && r.version == "" && s == ":" + (r.field + ("}" + rest)))
    || (Component(r.field) && r.version != "" && Component(r.version) &&
        s == ":" + (r.field + (":" + (r.version + ("}" + rest)))))
  }

  lemma AfterKeyIff(s: string, r: Reference, rest: string)
    ensures AfterKey(s, r.provider, r.key) == Some(Match(r, rest)) <==> KeyTail(s, r, rest)
  {
    if s != "" {
      assert s == [s[0]] + s[1..];
      if s[0] == ':' {
        var c := CutAt(s[1..]);
        AfterFieldIff(c.tail, r.(field := c.head), rest);
      }
    }
    if Component(r.field) && r.version == "" && s == ":" + (r.field + ("}" + rest)) {
      CutOf(r.field, "}" + rest);
      assert s[1..] == r.field + ("}" + rest);
    }
    if Component(r.field) && r.version != "" && Component(r.version) &&
       s == ":" + (r.field + (":" + (r.version + ("}" + rest)))) {
      CutOf(r.field, ":" + (r.version + ("}" + rest)));
      assert s[1..] == r.field + (":" + (r.version + ("}" + rest)));
    }
  }

  lemma KeyTailIff(s: string, r: Reference, rest: string)
    ensures KeyTail(s, r, rest) && r.key != "" && Component(r.key) && (r.provider != "" ==> Alias(r.provider)) <==>
            Valid(r) && exists form | 0 <= form <= 2 :: Form(r, form) && s == Suffix(r, form) + rest
  {
    assert Suffix(r, 0) + rest == "}" + rest;
    assert Suffix(r, 1) + rest == ":" + (r.field + ("}" + rest));
    assert Suffix(r, 2) + rest == ":" + (r.field + (":" + (r.version + ("}" + rest))));
    assert Form(r, 0) <==> r.field == "" && r.version == "";
    assert Form(r, 1) <==> r.version == "";
    assert Form(r, 2) <==> r.version != "";
    assert Component("");
  }

  lemma AfterProviderSound(s: string, r: Reference, rest: string)
    requires AfterProvider(s, r.provider) == Some(Match(r, rest)) && (r.provider != "" ==> Alias(r.provider))
    ensures Valid(r) && exists form | 0 <= form <= 2 :: Form(r, form) && s == ":" + (r.key + Suffix(r, form)) + rest
  {
    hide AfterKey, KeyTail, Form, Suffix;
    var c := CutAt(s[1..]);
    assert s == ":" + (c.head + c.tail);
    AfterKeyKeeps(c.tail, r.provider, c.head);
    AfterKeyIff(c.tail, r, rest);
    KeyTailIff(c.tail, r, rest);
    var form :| 0 <= form <= 2 && Form(r, form) && c.tail == Suffix(r, form) + rest;
    assert s == ":" + (r.key + Suffix(r, form)) + rest;
  }

  lemma AfterKeyKeeps(s: string, provider: string, key: string)
    requires AfterKey(s, provider, key).Some?
    ensures AfterKey(s, provider, key).value.ref.provider == provider
    ensures AfterKey(s, provider, key).value.ref.key == key
  {
  }

  lemma SuffixStart(r: Reference, form: nat, rest: string)
    ensures Suffix(r, form) + rest != "" && Delimiter((Suffix(r, form) + rest)[0])
  {
  }

  lemma AfterProviderStep(key: string, tail: string, provider: string)
    requires key != "" && Component(key) && tail != "" && Delimiter(tail[0])
    ensures AfterProvider(":" + (key + tail), provider) == AfterKey(tail, provider, key)
  {
    hide AfterKey;
    CutOf(key, tail);
    assert (":" + (key + tail))[1..] == key + tail;
  }

  lemma AfterProviderComplete(r: Reference, form: nat, rest: string)
    requires Valid(r) && form <= 2 && Form(r, form)
    ensures AfterProvider(":" + (r.key + Suffix(r, form)) + rest, r.provider) == Some(Match(r, rest))
  {
    hide AfterKey, KeyTail, Form, AfterProvider;
    SuffixStart(r, form, rest);
    hide Suffix;
    assert ":" + (r.key + Suffix(r, form)) + rest == ":" + (r.key + (Suffix(r, form) + rest));
    AfterProviderStep(r.key, Suffix(r, form) + rest, r.provider);
    AfterKeyIff(Suffix(r, form) + rest, r, rest);
    KeyTailIff(Suffix(r, form) + rest, r, rest);
  }

  lemma LeadSplit(r: Reference, form: nat, rest: string)
    ensures OPENER <= Spell(r, form) + rest
    ensures r.provider == "" ==> (Spell(r, form) + rest)[|OPENER|..] == ":" + (r.key + Suffix(r, form)) + rest
    ensures r.provider != "" ==>
              (Spell(r, form) + rest)[|OPENER|..] == "@" + (r.provider + (":" + (r.key + Suffix(r, form)) + rest))
  {
    hide Suffix;
    var core := ":" + (r.key + Suffix(r, form));
    if r.provider == "" {
      assert "" + core == core;
      Regroup(OPENER, core, rest);
    } else {
      Regroup(OPENER, "@" + r.provider + core, rest);
      Regroup("@" + r.provider, core, rest);
      Regroup("@", r.provider, core + rest);
    }
  }

  lemma Regroup(a: string, b: string, c: string)
    ensures (a + b) + c == a + (b + c) && a <= a + b + c && (a + b + c)[|a|..] == b + c
  {
  }

  /** Whatever the matcher finds, the grammar derives. */
  lemma MatchSound(s: string)
    requires MatchAt(s).Some?
    ensures var m := MatchAt(s).value;
            |m.rest| < |s| && Derives(s[..|s| - |m.rest|], m.ref) && s == s[..|s| - |m.rest|] + m.rest
  {
    var r, rest := MatchAt(s).value.ref, MatchAt(s).value.rest;
    var t := s[|OPENER|..];
    assert s == OPENER + t;
    var provided := t != "" && t[0] == '@';
    var c := if provided then AliasCut(t[1..]) else Cut("", t);
    assert c.head == r.provider by { AfterProviderKeeps(c.tail, c.head); }
    AfterProviderSound(c.tail, r, rest);
    var form :| 0 <= form <= 2 && Form(r, form) && c.tail == ":" + (r.key + Suffix(r, form)) + rest;
    LeadSplit(r, form, rest);
    assert provided ==> t == "@" + (c.head + c.tail);
    assert (Spell(r, form) + rest)[|OPENER|..] == t;
    assert Spell(r, form) + rest == OPENER + (Spell(r, form) + rest)[|OPENER|..];
    assert s == Spell(r, form) + rest;
    assert s[..|s| - |rest|] == Spell(r, form);
  }

  lemma AfterProviderKeeps(s: string, provider: string)
    requires AfterProvider(s, provider).Some?
    ensures AfterProvider(s, provider).value.ref.provider == provider
  {
  }

  /** Whatever the grammar derives is found, whatever follows it. */
  lemma MatchComplete(text: string, r: Reference, rest: string)
    requires Derives(text, r)
    ensures MatchAt(text + rest) == Some(Match(r, rest))
  {
    var form :| 0 <= form <= 2 && Form(r, form) && text == Spell(r, form);
    LeadSplit(r, form, rest);
    var b := ":" + (r.key + Suffix(r, form)) + rest;
    AfterProviderComplete(r, form, rest);
    if r.provider != "" {
      AliasCutOf(r.provider, b);
      assert ("@" + (r.provider + b))[1..] == r.provider + b;
    }
  }

  /** Parse: one reference that is the whole text. */
  function Parse(s: string): Option<Reference> {
    match MatchAt(s)
    case Some(m) => if m.rest == "" then Some(m.ref) else None
    case None => None
  }

  /** The parser accepts exactly the texts of the grammar. */
  lemma ParseIff(s: string, r: Reference)
    ensures Parse(s) == Some(r) <==> Derives(s, r)
  {
    if Derives(s, r) {
      MatchComplete(s, r, "");
      assert s + "" == s;
    }
    if Parse(s) == Some(r) {
      MatchSound(s);
      assert s[..|s|] == s;
    }
  }

  /** Printing then parsing returns the reference, and no shorter text does. */
  lemma PrintParse(r: Reference)
    requires Valid(r)
    ensures Parse(Print(r)) == Some(r)
    ensures forall s :: Parse(s) == Some(r) ==> |Print(r)| <= |s|
  {
    var form := if r.version != "" then 2 else if r.field != "" then 1 else 0;
    assert Form(r, form) && Derives(Spell(r, form), r);
    ParseIff(Print(r), r);
    forall s | Parse(s) == Some(r) ensures |Print(r)| <= |s| {
      ParseIff(s, r);
    }
  }

  /** Everything parsed is valid, and survives being printed and parsed again. */
  lemma ParsedIsValid(s: string)
    requires Parse(s).Some?
    ensures Valid(Parse(s).value) && Parse(Print(Parse(s).value)) == Parse(s)
  {
    ParseIff(s, Parse(s).value);
    PrintParse(Parse(s).value);
  }

  /** The texts of a reference: its printed form, and one more, with a bare
      trailing colon, when it has neither field nor version. */
  lemma TextsOf(s: string, r: Reference)
    ensures Parse(s) == Some(r) <==>
            Valid(r) && (s == Print(r) || (r.field == "" && r.version == "" && s == Spell(r, 1)))
    ensures r.field == "" && r.version == "" ==> |Spell(r, 1)| == |Print(r)| + 1
  {
    ParseIff(s, r);
    assert Form(r, 0) <==> r.field == "" && r.version == "";
    assert Form(r, 1) <==> r.version == "";
    assert Form(r, 2) <==> r.version != "";
  }

  /** Why String refuses a reference that is not valid: the components of
      Reference{Key: "key:segment"} would spell another secret's reference. */
  lemma UnrepresentableExample()
    ensures !Valid(Reference("", "key:segment", "", ""))
    ensures Parse(Print(Reference("", "key:segment", "", ""))) == Some(Reference("", "key", "segment", ""))
  {
    var bad, other := Reference("", "key:segment", "", ""), Reference("", "key", "segment", "");
    assert Delimiter(bad.key[3]);
    assert Print(bad) == Spell(other, 1);
    assert Valid(other) && Form(other, 1) && Derives(Spell(other, 1), other);
    ParseIff(Print(bad), other);
  }
}
