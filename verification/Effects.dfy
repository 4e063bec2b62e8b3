/** What the committed operations do to a snapshot, path by path. */
module Effects {
  import opened Values
  import opened Paths
  import opened Snapshots
  import opened Overrides
  import opened Lifecycle

  /** Both hold the same at every path that neither contains p nor lies on it. */
  ghost predicate SameOff(a: Tree, b: Tree, p: Path) {
    forall q: Path :: !Comparable(p, q) ==> GetPath(a, q) == GetPath(b, q)
  }

  /** The three maps hold the value at p. */
  ghost predicate HoldsAt(v: Views, p: Path, raw: Value, effective: Value) {
    GetPath(v.env, p) == Some(effective) && GetPath(v.raw, p) == Some(raw) && GetPath(v.merged, p) == Some(raw)
  }

  ghost predicate SameViewsOff(a: Views, b: Views, p: Path) {
    SameOff(a.env, b.env, p) && SameOff(a.raw, b.raw, p) && SameOff(a.merged, b.merged, p)
  }

  /** A write at p is possible in t: no proper prefix of p holds a non-map. */
  ghost predicate Open(t: Tree, p: Path) {
    forall i :: 0 < i < |p| && GetPath(t, p[..i]).Some? ==> GetPath(t, p[..i]).value.Map?
  }

  lemma SetOneFacts(t: Tree, p: Path, v: Value)
    ensures SetPath(t, p, v).Some? <==> Open(t, p)
    ensures SetPath(t, p, v).Some? ==>
              GetPath(SetPath(t, p, v).value, p) == Some(v) && SameOff(SetPath(t, p, v).value, t, p)
  {
    SetFailsIff(t, p, v);
    if SetPath(t, p, v).Some? {
      GetAfterSet(t, p, v);
      forall q: Path | !Comparable(p, q) ensures GetPath(SetPath(t, p, v).value, q) == GetPath(t, q) {
        SetFrame(t, p, v, q);
      }
    }
  }

  /** What recording a value does to the attribution of its key: a first value has
      no past; a new value counts as an override, with the old one in the history
      in debug mode; the value that was there only changes its origin. */
  ghost predicate Tracked(o: Settings, before: Attribution, after: Attribution, key: string, v: Value, source: string)
  {
    key in after && var now := after[key];
    && now.value == v && now.source == now.loaderType == source
    && if key !in before then now.environment == o.environment && now.overrides == 0 && now.history == []
       else
         var was := before[key];
         now.environment == was.environment &&
         if was.value == v then now.overrides == was.overrides && now.history == was.history
         else
           && now.overrides == was.overrides + 1
           && now.history == was.history +
                             if o.debug then [Entry(was.value, was.source, was.loaderType)] else []
  }

  /** The other keys keep theirs. */
  ghost predicate TrackedOff(before: Attribution, after: Attribution, key: string) {
    forall k :: k != key ==> (k in after <==> k in before) && (k in before ==> after[k] == before[k])
  }

  lemma TrackFacts(o: Settings, v: Views, key: string, raw: Value, effective: Value, source: string)
    requires SetKey(o, v, key, raw, effective, source).Some?
    ensures var v' := SetKey(o, v, key, raw, effective, source).value;
            Tracked(o, v.tracker, v'.tracker, key, raw, source) && TrackedOff(v.tracker, v'.tracker, key)
  {
    hide SetPath, Parse;
  }

  lemma SetKeyFacts(o: Settings, v: Views, key: string, raw: Value, effective: Value, source: string)
    ensures SetKey(o, v, key, raw, effective, source).Some? <==>
            Parse(key).Some? && Open(v.env, Parse(key).value) && Open(v.raw, Parse(key).value) &&
                Open(v.merged, Parse(key).value)
    ensures SetKey(o, v, key, raw, effective, source).Some? ==>
              var v', p := SetKey(o, v, key, raw, effective, source).value, Parse(key).value;
              HoldsAt(v', p, raw, effective) && SameViewsOff(v', v, p)
  {
    hide SetPath, Open, SameOff, Parse;
    if Parse(key).Some? {
      var p := Parse(key).value;
      SetOneFacts(v.env, p, effective);
      SetOneFacts(v.raw, p, raw);
      SetOneFacts(v.merged, p, raw);
    }
  }

  /** A Set is rejected exactly for an invalid or blocked path, an existing key
      it may not replace, or a result that does not validate; otherwise the
      effective map gets the materialized value, the other two the value as
      given, all other paths keep theirs, and so do the sources. */
  lemma SetEffect(o: Settings, c: Content, key: string, raw: Value, effective: Value, allow: bool)
    ensures var r := Candidate(o, SetJob(key, raw, effective, allow), c);
            if Parse(key).None? then r == Failed
            else
              var p, v := Parse(key).value, c.View();
              if !Open(v.env, p) || !Open(v.raw, p) || !Open(v.merged, p) || (!allow &&
                  GetPath(c.env, p).Some?) then r == Failed
              else if r.Publish? then
                && o.valid(r.c.env) && r.c.raw.Some? && HoldsAt(r.c.View(), p, raw, effective) &&
                    SameViewsOff(r.c.View(), v, p)
                && r.c.sensitive == SensitiveAfter(o, r.c.raw.value) && r.c.sources == c.sources
                && Tracked(o, c.tracker, r.c.tracker, key, raw, "runtime") && TrackedOff(c.tracker, r.c.tracker, key)
              else r == Failed && SetPath(v.env, p, effective).Some? && !o.valid(SetPath(v.env, p, effective).value)
  {
    SetKeyFacts(o, c.View(), key, raw, effective, "runtime");
    if SetKey(o, c.View(), key, raw, effective, "runtime").Some? {
      TrackFacts(o, c.View(), key, raw, effective, "runtime");
    }
    hide Tracked, TrackedOff, SetPath, Open, HoldsAt, SameViewsOff, Parse, GetPath, SensitiveAfter;
  }

  lemma KeepsAt(v: Views, v': Views, p: Path, q: Path, raw: Value, effective: Value)
    requires HoldsAt(v, p, raw, effective) && SameViewsOff(v', v, q) && !Comparable(q, p)
    ensures HoldsAt(v', p, raw, effective)
  {
  }

  /** After an Override, each of its keys that no other of its keys contains or
      lies on holds its value in all three maps. */
  lemma {:induction false} SetKeysEffect(o: Settings, v: Views, keys: seq<string>, payload: map<string, Value>,
                                         effective: map<string, Value>, k: string)
    requires (forall j :: j in keys ==> j in payload) && k in keys && Parse(k).Some?
    requires forall i, j :: 0 <= i < j < |keys| ==> keys[i] != keys[j]
    requires forall j :: j in keys && j != k && Parse(j).Some? ==> !Comparable(Parse(j).value, Parse(k).value)
    requires SetKeys(o, v, keys, payload, effective).Some?
    ensures HoldsAt(SetKeys(o, v, keys, payload, effective).value, Parse(k).value, payload[k], EffectiveOf(payload,
              effective, k))
    decreases |keys|
  {
    hide HoldsAt, SameViewsOff, SetKey, Parse, Comparable;
    var j := keys[0];
    assert j in keys;
    SetKeyFacts(o, v, j, payload[j], EffectiveOf(payload, effective, j), "override");
    var v' := SetKey(o, v, j, payload[j], EffectiveOf(payload, effective, j), "override").value;
    if k != j {
      SetKeysEffect(o, v', keys[1..], payload, effective, k);
    } else {
      assert forall i :: 0 < i < |keys| ==> keys[i] != k;
      SetKeysKeep(o, v', keys[1..], payload, effective, Parse(k).value, payload[k], EffectiveOf(payload, effective, k));
    }
  }

  lemma {:induction false} SetKeysKeep(o: Settings, v: Views, keys: seq<string>, payload: map<string, Value>,
                                       effective: map<string, Value>, p: Path, x: Value, e: Value)
    requires forall j :: j in keys ==> j in payload
    requires forall j :: j in keys && Parse(j).Some? ==> !Comparable(Parse(j).value, p)
    requires SetKeys(o, v, keys, payload, effective).Some? && HoldsAt(v, p, x, e)
    ensures HoldsAt(SetKeys(o, v, keys, payload, effective).value, p, x, e)
    decreases |keys|
  {
    hide HoldsAt, SameViewsOff, SetKey, Parse, Comparable;
    if keys != [] {
      var j := keys[0];
      assert j in keys;
      SetKeyFacts(o, v, j, payload[j], EffectiveOf(payload, effective, j), "override");
      var v' := SetKey(o, v, j, payload[j], EffectiveOf(payload, effective, j), "override").value;
      KeepsAt(v, v', p, Parse(j).value, x, e);
      SetKeysKeep(o, v', keys[1..], payload, effective, p, x, e);
    }
  }

  /** An Override publishes its values; the frozen flag is off and the frame is
      on top of the stack with a new id. */
  lemma PushEffect(o: Settings, s: Shared, payload: map<string, Value>, effective: map<string, Value>, k: string)
    requires Wellformed(s) && Push(o, s, payload, effective).Some? && k in payload && Parse(k).Some?
    requires forall j :: j in payload && j != k && Parse(j).Some? ==> !Comparable(Parse(j).value, Parse(k).value)
    ensures var s' := Push(o, s, payload, effective).value;
            && HoldsAt(s'.content.View(), Parse(k).value, payload[k], EffectiveOf(payload, effective, k))
            && !s'.frozen && s'.revision == s.revision + 1 && s'.lastId == s.lastId + 1 && o.valid(s'.content.env)
            && s'.stack == s.stack + [Frame(s'.lastId, payload, effective)] && !InStack(s.stack, s'.lastId)
  {
    hide HoldsAt, SetKeys, Parse, Comparable, SensitiveAfter, InStack;
    PushKeeps(o, s, payload, effective);
    var keys := SortedKeys(payload.Keys);
    forall i, j | 0 <= i < j < |keys| ensures keys[i] != keys[j] {
      LessTotal(keys[i], keys[i]);
    }
    SetKeysEffect(o, s.content.View(), keys, payload, effective, k);
  }

  lemma {:induction false} SetKeysTracked(o: Settings, v: Views, keys: seq<string>, payload: map<string, Value>,
                                         effective: map<string, Value>, k: string)
    requires (forall j :: j in keys ==> j in payload) && SetKeys(o, v, keys, payload, effective).Some?
    requires forall i, j :: 0 <= i < j < |keys| ==> keys[i] != keys[j]
    ensures var t, t' := v.tracker, SetKeys(o, v, keys, payload, effective).value.tracker;
            if k in keys then Tracked(o, t, t', k, payload[k], "override")
            else (k in t' <==> k in t) && (k in t ==> t'[k] == t[k])
    decreases |keys|
  {
    hide SetKey;
    if keys != [] {
      var j := keys[0];
      assert j in keys;
      TrackFacts(o, v, j, payload[j], EffectiveOf(payload, effective, j), "override");
      var v' := SetKey(o, v, j, payload[j], EffectiveOf(payload, effective, j), "override").value;
      assert forall i :: 0 < i < |keys| ==> keys[i] != j;
      SetKeysTracked(o, v', keys[1..], payload, effective, k);
    }
  }

  /** An Override records each of its keys once, and no other. */
  lemma PushTracked(o: Settings, s: Shared, payload: map<string, Value>, effective: map<string, Value>, k: string)
    requires Push(o, s, payload, effective).Some?
    ensures var t, t' := s.content.tracker, Push(o, s, payload, effective).value.content.tracker;
            if k in payload then Tracked(o, t, t', k, payload[k], "override")
            else (k in t' <==> k in t) && (k in t ==> t'[k] == t[k])
  {
    hide SetKeys, SensitiveAfter, Tracked;
    var keys := SortedKeys(payload.Keys);
    forall i, j | 0 <= i < j < |keys| ensures keys[i] != keys[j] {
      LessTotal(keys[i], keys[i]);
    }
    SetKeysTracked(o, s.content.View(), keys, payload, effective, k);
  }

  /** A key can be set in all three maps. */
  ghost predicate OpenIn(v: Views, p: Path) { Open(v.env, p) && Open(v.raw, p) && Open(v.merged, p) }

  lemma OpenElsewhere(t: Tree, p: Path, x: Value, q: Path)
    requires SetPath(t, p, x).Some? && !Comparable(p, q)
    ensures Open(SetPath(t, p, x).value, q) <==> Open(t, q)
  {
    SetElsewhereSucceeds(t, p, x, q, x);
    SetOneFacts(t, q, x);
    SetOneFacts(SetPath(t, p, x).value, q, x);
    hide SetPath, Open, GetPath;
  }

  lemma SetKeyOpens(o: Settings, v: Views, key: string, raw: Value, effective: Value, source: string, q: Path)
    requires SetKey(o, v, key, raw, effective, source).Some? && !Comparable(Parse(key).value, q)
    ensures OpenIn(SetKey(o, v, key, raw, effective, source).value, q) <==> OpenIn(v, q)
  {
    hide SetPath, Open, Parse, TrackValue;
    var p := Parse(key).value;
    OpenElsewhere(v.env, p, effective, q);
    OpenElsewhere(v.raw, p, raw, q);
    OpenElsewhere(v.merged, p, raw, q);
  }

  /** No key contains another or lies on it. */
  ghost predicate Spread(keys: seq<string>) {
    forall i, j :: 0 <= i < j < |keys| && Parse(keys[i]).Some? && Parse(keys[j]).Some? ==>
      !Comparable(Parse(keys[i]).value, Parse(keys[j]).value)
  }

  lemma {:induction false} SetKeysIff(o: Settings, v: Views, keys: seq<string>, payload: map<string, Value>,
                                      effective: map<string, Value>)
    requires (forall j :: j in keys ==> j in payload) && Spread(keys)
    ensures SetKeys(o, v, keys, payload, effective).Some? <==>
            forall i :: 0 <= i < |keys| ==> Parse(keys[i]).Some? && OpenIn(v, Parse(keys[i]).value)
    decreases |keys|
  {
    hide OpenIn, SetKey, Parse, Comparable;
    if keys != [] {
      var k := keys[0];
      assert k in keys;
      var e := EffectiveOf(payload, effective, k);
      SetKeyOpen(o, v, k, payload[k], e);
      if SetKey(o, v, k, payload[k], e, "override").Some? {
        var v' := SetKey(o, v, k, payload[k], e, "override").value;
        SetKeysIff(o, v', keys[1..], payload, effective);
        forall i | 0 < i < |keys| && Parse(keys[i]).Some?
          ensures OpenIn(v', Parse(keys[i]).value) <==> OpenIn(v, Parse(keys[i]).value)
        {
          SetKeyOpens(o, v, k, payload[k], e, "override", Parse(keys[i]).value);
        }
        assert forall i :: 0 < i < |keys| ==> keys[i] == keys[1..][i - 1];
      }
    }
  }

  lemma SetKeyOpen(o: Settings, v: Views, k: string, raw: Value, effective: Value)
    ensures SetKey(o, v, k, raw, effective, "override").Some? <==> Parse(k).Some? && OpenIn(v, Parse(k).value)
  {
    SetKeyFacts(o, v, k, raw, effective, "override");
    hide SetKey, Parse, Open;
  }

  /** Every key of a payload can be set in all three maps. */
  ghost predicate Settable(v: Views, payload: map<string, Value>) {
    forall k :: k in payload ==> Parse(k).Some? && OpenIn(v, Parse(k).value)
  }

  lemma SettableIff(o: Settings, v: Views, payload: map<string, Value>, effective: map<string, Value>)
    requires Spread(SortedKeys(payload.Keys))
    ensures SetKeys(o, v, SortedKeys(payload.Keys), payload, effective).Some? <==> Settable(v, payload)
  {
    hide SetKeys, Parse, OpenIn, Spread;
    SetKeysIff(o, v, SortedKeys(payload.Keys), payload, effective);
  }

  /** An Override whose keys lie apart is refused exactly when the configuration is
      closed, a key is no path or blocked in one of the maps, or the result is not
      valid. */
  lemma PushIff(o: Settings, s: Shared, payload: map<string, Value>, effective: map<string, Value>)
    requires Spread(SortedKeys(payload.Keys))
    ensures s.closed || !Settable(s.content.View(), payload) ==> Push(o, s, payload, effective).None?
    ensures !s.closed && Settable(s.content.View(), payload) ==>
              var r := SetKeys(o, s.content.View(), SortedKeys(payload.Keys), payload, effective);
              r.Some? && (Push(o, s, payload, effective).Some? <==> o.valid(r.value.env))
  {
    hide *;
    SettableIff(o, s.content.View(), payload, effective);
    PushCases(o, s, payload, effective);
  }

  lemma PushCases(o: Settings, s: Shared, payload: map<string, Value>, effective: map<string, Value>)
    ensures var r := SetKeys(o, s.content.View(), SortedKeys(payload.Keys), payload, effective);
            Push(o, s, payload, effective).Some? <==> !s.closed && r.Some? && o.valid(r.value.env)
  {
    hide SetKeys, SensitiveAfter;
  }

  /** What the replay of one key does: each map takes its value if it and those
      before it can, the attribution if all three can, and nothing else changes. */
  lemma ReplayKeyEffect(o: Settings, v: Views, key: string, raw: Value, effective: Value)
    ensures var v' := ReplayKey(o, v, key, raw, effective);
            if Parse(key).None? then v' == v
            else
              var p := Parse(key).value;
              var e, r, m := Open(v.env, p), Open(v.env, p) && Open(v.raw, p), OpenIn(v, p);
              && (if e then GetPath(v'.env, p) == Some(effective) && SameOff(v'.env, v.env, p) else v'.env == v.env)
              && (if r then GetPath(v'.raw, p) == Some(raw) && SameOff(v'.raw, v.raw, p) else v'.raw == v.raw)
              && (if m then GetPath(v'.merged, p) == Some(raw) && SameOff(v'.merged, v.merged, p)
                  else v'.merged == v.merged)
              && (if m then Tracked(o, v.tracker, v'.tracker, key, raw, "override") &&
                            TrackedOff(v.tracker, v'.tracker, key)
                  else v'.tracker == v.tracker)
  {
    if Parse(key).Some? {
      var p := Parse(key).value;
      SetOneFacts(v.env, p, effective);
      SetOneFacts(v.raw, p, raw);
      SetOneFacts(v.merged, p, raw);
      SetKeyOpen(o, v, key, raw, effective);
      if OpenIn(v, p) {
        TrackFacts(o, v, key, raw, effective, "override");
      }
    }
    hide SetPath, Open, SameOff, Parse, GetPath, TrackValue, Tracked, TrackedOff;
  }

  /** A restore takes out its frame and no other; inside the scope it thaws the
      configuration and keeps the base, and at its end everything is the base's. */
  lemma RestoreEffect(o: Settings, s: Shared, id: nat)
    requires Wellformed(s)
    ensures var r := Restore(o, s, id);
            && r.lastId == s.lastId && r.closed == s.closed && r.content.sources == s.content.sources
            && if s.closed || !InStack(s.stack, id) then r == s
               else
                 && s.base.Some? && r.revision == s.revision + 1 && r.content.raw.Some?
                 && (forall i, j :: 0 <= i < j < |r.stack| ==> r.stack[i].id < r.stack[j].id)
                 && (forall f :: f in r.stack <==> f in s.stack && f.id != id)
                 && if r.stack != [] then !r.frozen && r.base == s.base
                    else
                      var b := s.base.value;
                      r.base.None? && r.content.View() == b.views && r.content.sensitive == b.sensitive &&
                      r.frozen == b.frozen
  {
    hide Replay, SensitiveAfter;
    WithoutFacts(s.stack, id);
  }

  /** A refresh replaces the effective map and the classification, and nothing
      else; a rollback makes all three maps, the attribution and the sensitive paths
      the version's. */
  lemma RefreshAndRollbackEffect(o: Settings, c: Content, resolve: Tree -> Option<Tree>, v: Version)
    ensures var r := Candidate(o, RefreshJob(resolve), c);
            r.Publish? ==>
              && r.c.(env := c.env, sensitive := c.sensitive) == c && c.raw.Some?
              && Some(r.c.env) == resolve(c.raw.value) &&
                  o.valid(r.c.env)
    ensures var r := Candidate(o, RollbackJob(v), c);
            r.Publish? ==>
              && r.c.env == v.config && r.c.raw == Some(v.config) && r.c.merged == v.config && r.c.sources == c.sources
              && (forall p :: p in r.c.sensitive <==> p in v.sensitive && p != "") && r.c.tracker == v.tracker
              && o.valid(r.c.env)
  {
    hide SensitiveAfter;
  }
}
