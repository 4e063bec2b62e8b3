/** One provider read per secret in a resolution session
    (config_secret_self.go, getSelfConfigSecretOnce), for any number of
    concurrent callers. */
module SecretSession {
  import opened Values

  datatype Request = Request(provider: string, key: string, version: string)

  const NUL := 0 as char

  /** provider + "\x00" + key + "\x00" + version */
  function CacheKey(r: Request): string { r.provider + [NUL] + (r.key + [NUL] + r.version) }

  type Answer = Result<Value, string>

  /** A table entry: which call created it, and its answer once done is closed. */
  datatype Entry = Entry(leader: nat, asked: Request, answer: Option<Answer>)

  datatype Caller =
    | Waiting(req: Request)
    | Fetching(req: Request)
    | Returned(req: Request, answer: Answer)
    | Cancelled(req: Request)

  datatype State = State(
    entries: map<string, Entry>,
    callers: map<nat, Caller>,
    read: seq<Request>)

  datatype Step =
    | Arrive(t: nat, req: Request)
    | Finish(t: nat, answer: Answer)
    | Wake(t: nat)
    | Cancel(t: nat)

  ghost predicate Init(s: State) { s == State(map[], map[], []) }

  predicate Next(s: State, s': State, step: Step) {
    match step
    case Arrive(t, req) =>
      // the lookup and the insertion happen under one lock
      t !in s.callers &&
      var k := CacheKey(req);
      s' == if k in s.entries then s.(callers := s.callers[t := Waiting(req)])
            else State(s.entries[k := Entry(t, req, None)], s.callers[t := Fetching(req)], s.read + [req])
    case Finish(t, answer) =>
      t in s.callers && s.callers[t].Fetching? && CacheKey(s.callers[t].req) in s.entries &&
      var k := CacheKey(s.callers[t].req);
      s' == s.(entries := s.entries[k := s.entries[k].(answer := Some(answer))],
               callers := s.callers[t := Returned(s.callers[t].req, answer)])
    case Wake(t) =>
      t in s.callers && s.callers[t].Waiting? && CacheKey(s.callers[t].req) in s.entries &&
      var e := s.entries[CacheKey(s.callers[t].req)];
      e.answer.Some? && s' == s.(callers := s.callers[t := Returned(s.callers[t].req, e.answer.value)])
    case Cancel(t) =>
      t in s.callers && s.callers[t].Waiting? && s' == s.(callers := s.callers[t := Cancelled(s.callers[t].req)])
  }

  ghost predicate Inv(s: State) {
    && (forall t :: t in s.callers ==> CacheKey(s.callers[t].req) in s.entries)
    && (forall k :: k in s.entries ==>
          && CacheKey(s.entries[k].asked) == k && s.entries[k].asked in s.read
          && s.entries[k].leader in s.callers
          && s.callers[s.entries[k].leader].req == s.entries[k].asked
          && (s.entries[k].answer.None? ==> s.callers[s.entries[k].leader].Fetching?)
          && (s.entries[k].answer.Some? ==> s.callers[s.entries[k].leader] == Returned(s.entries[k].asked,
              s.entries[k].answer.value)))
    && (forall t :: t in s.callers && s.callers[t].Fetching? ==> s.entries[CacheKey(s.callers[t].req)].leader == t)
    && (forall t :: t in s.callers && s.callers[t].Returned? ==>
          s.entries[CacheKey(s.callers[t].req)].answer == Some(s.callers[t].answer))
    && (forall r :: r in s.read ==> CacheKey(r) in s.entries)
    && (forall i, j :: 0 <= i < j < |s.read| ==> CacheKey(s.read[i]) != CacheKey(s.read[j]))
  }

  lemma InitInv(s: State)
    requires Init(s)
    ensures Inv(s)
  {
  }

  lemma ArriveInv(s: State, s': State, t: nat, req: Request)
    requires Inv(s) && Next(s, s', Arrive(t, req))
    ensures Inv(s')
  {
    hide CacheKey, Inv;
    if CacheKey(req) in s.entries {
      JoinInv(s, t, req);
    } else {
      LeadInv(s, t, req);
    }
  }

  /** A caller that finds an entry waits for it. */
  lemma JoinInv(s: State, t: nat, req: Request)
    requires Inv(s) && t !in s.callers && CacheKey(req) in s.entries
    ensures Inv(s.(callers := s.callers[t := Waiting(req)]))
  {
    hide CacheKey;
  }

  /** The first caller inserts the entry and reads. */
  lemma LeadInv(s: State, t: nat, req: Request)
    requires Inv(s) && t !in s.callers && CacheKey(req) !in s.entries
    ensures Inv(State(s.entries[CacheKey(req) := Entry(t, req, None)], s.callers[t := Fetching(req)], s.read + [req]))
  {
    hide CacheKey;
    var read := s.read + [req];
    forall i, j | 0 <= i < j < |read| ensures CacheKey(read[i]) != CacheKey(read[j]) {
      assert s.read[i] in s.read;
    }
  }

  lemma FinishInv(s: State, s': State, t: nat, answer: Answer)
    requires Inv(s) && Next(s, s', Finish(t, answer))
    ensures Inv(s')
  {
    hide CacheKey, Inv;
    AnswerInv(s, t, s.callers[t].req, answer);
  }

  /** The first caller publishes its answer. */
  lemma AnswerInv(s: State, t: nat, req: Request, answer: Answer)
    requires Inv(s) && t in s.callers && s.callers[t] == Fetching(req) && CacheKey(req) in s.entries
    ensures Inv(s.(entries := s.entries[CacheKey(req) := s.entries[CacheKey(req)].(answer := Some(answer))],
                   callers := s.callers[t := Returned(req, answer)]))
  {
    hide CacheKey;
    assert s.entries[CacheKey(req)].leader == t && s.entries[CacheKey(req)].answer.None?;
  }

  lemma WakeInv(s: State, s': State, t: nat)
    requires Inv(s) && Next(s, s', Wake(t))
    ensures Inv(s')
  {
    hide CacheKey, Inv;
    var req := s.callers[t].req;
    EndWaitInv(s, t, req, Returned(req, s.entries[CacheKey(req)].answer.value));
  }

  lemma Listed(s: State, t: nat)
    requires Inv(s) && t in s.callers
    ensures CacheKey(s.callers[t].req) in s.entries
  {
  }

  lemma CancelInv(s: State, s': State, t: nat)
    requires Inv(s) && Next(s, s', Cancel(t))
    ensures Inv(s')
  {
    hide CacheKey, Inv;
    assert CacheKey(s.callers[t].req) in s.entries by { Listed(s, t); }
    EndWaitInv(s, t, s.callers[t].req, Cancelled(s.callers[t].req));
  }

  /** A waiting caller leaves, with the entry's answer or without one. */
  lemma EndWaitInv(s: State, t: nat, req: Request, after: Caller)
    requires Inv(s) && t in s.callers && s.callers[t] == Waiting(req) && CacheKey(req) in s.entries
    requires after == Cancelled(req) ||
             (s.entries[CacheKey(req)].answer.Some? && after == Returned(req, s.entries[CacheKey(req)].answer.value))
    ensures Inv(s.(callers := s.callers[t := after]))
  {
    hide CacheKey;
    assert forall k :: k in s.entries ==> s.entries[k].leader != t;
  }

  lemma NextInv(s: State, s': State, step: Step)
    requires Inv(s) && Next(s, s', step)
    ensures Inv(s')
  {
    hide *;
    match step {
      case Arrive(t, req) => ArriveInv(s, s', t, req);
      case Finish(t, answer) => FinishInv(s, s', t, answer);
      case Wake(t) => WakeInv(s, s', t);
      case Cancel(t) => CancelInv(s, s', t);
    }
  }

  datatype Event = Event(step: Step, after: State)

  function Before(init: State, events: seq<Event>, i: nat): State
    requires i <= |events|
  {
    if i == 0 then init else events[i - 1].after
  }

  ghost predicate Run(init: State, events: seq<Event>) {
    Init(init) && forall i :: 0 <= i < |events| ==> Next(Before(init, events, i), events[i].after, events[i].step)
  }

  lemma {:induction false} RunInv(init: State, events: seq<Event>, i: nat)
    requires Run(init, events) && i <= |events|
    ensures Inv(Before(init, events, i))
  {
    hide Next, Inv, Init;
    if i == 0 {
      assert Init(init);
      InitInv(init);
    } else {
      RunInv(init, events, i - 1);
      assert events[i - 1].after == Before(init, events, i);
      NextInv(Before(init, events, i - 1), events[i - 1].after, events[i - 1].step);
    }
  }

  predicate NulFree(s: string) { NUL !in s }

  lemma CutAtNul(a: string, b: string, x: string, y: string)
    requires NulFree(a) && NulFree(b) && a + [NUL] + x == b + [NUL] + y
    ensures a == b && x == y
  {
    var s := a + [NUL] + x;
    assert s[|a|] == NUL && s[|b|] == NUL && |s| == |b| + 1 + |y|;
    assert a == s[..|a|] && b == s[..|b|];
    assert x == s[|a| + 1..] && y == s[|b| + 1..];
  }

  /** The table keeps different secrets apart when provider and key are NUL-free;
      the version may hold anything. */
  lemma CacheKeyInjective(r: Request, q: Request)
    requires NulFree(r.provider) && NulFree(r.key) && NulFree(q.provider) && NulFree(q.key)
    ensures CacheKey(r) == CacheKey(q) <==> r == q
  {
    if CacheKey(r) == CacheKey(q) {
      CutAtNul(r.provider, q.provider, r.key + [NUL] + r.version, q.key + [NUL] + q.version);
      CutAtNul(r.key, q.key, r.version, q.version);
    }
  }

  predicate Plain(r: Request) { NulFree(r.provider) && NulFree(r.key) }

  /** The position of the first NUL, or the length. */
  function FirstNul(s: string): (i: nat)
    ensures i <= |s| && NulFree(s[..i]) && (i < |s| ==> s[i] == NUL) && (i == |s| <==> NulFree(s))
  {
    if s == "" || s[0] == NUL then 0
    else
      var i := FirstNul(s[1..]);
      assert s[..i + 1] == [s[0]] + s[1..][..i];
      assert s == [s[0]] + s[1..];
      i + 1
  }

  lemma {:induction false} FirstNulAtMost(s: string, k: nat)
    requires k < |s| && s[k] == NUL
    ensures FirstNul(s) <= k
  {
    if k > 0 && s[0] != NUL {
      FirstNulAtMost(s[1..], k - 1);
    }
  }

  function AfterFirst(s: string): string { if FirstNul(s) < |s| then s[FirstNul(s) + 1..] else "" }

  /** The request with NUL-free provider and key that has the same table key:
      the text cut at its first two NULs. */
  function PlainTwin(r: Request): Request {
    var s := CacheKey(r);
    var t := AfterFirst(s);
    Request(s[..FirstNul(s)], t[..FirstNul(t)], AfterFirst(t))
  }

  lemma CutFirst(s: string, k: nat)
    requires k < |s| && s[k] == NUL
    ensures FirstNul(s) <= k && s == s[..FirstNul(s)] + [NUL] + AfterFirst(s)
    ensures FirstNul(s) < k ==> k - FirstNul(s) - 1 < |AfterFirst(s)| && AfterFirst(s)[k - FirstNul(s) - 1] == NUL
  {
    FirstNulAtMost(s, k);
  }

  lemma PlainTwinFacts(r: Request)
    ensures CacheKey(PlainTwin(r)) == CacheKey(r) && Plain(PlainTwin(r))
  {
    var s := CacheKey(r);
    var k := |r.provider| + 1 + |r.key|;
    assert s[|r.provider|] == NUL && s[k] == NUL;
    CutFirst(s, |r.provider|);
    CutFirst(s, k);
    var t := AfterFirst(s);
    CutFirst(t, k - FirstNul(s) - 1);
  }

  /** A request without NULs in provider and key is the only such request with
      its table key, and no other request is. */
  lemma PlainIff(r: Request)
    ensures Plain(r) <==> forall q :: Plain(q) && CacheKey(q) == CacheKey(r) ==> q == r
  {
    if Plain(r) {
      forall q | Plain(q) && CacheKey(q) == CacheKey(r) ensures q == r {
        CacheKeyInjective(q, r);
      }
    } else {
      PlainTwinFacts(r);
      assert PlainTwin(r) != r;
    }
  }

  /** No other request at all has the table key of r exactly when none of its
      three parts holds a NUL. */
  ghost predicate Unmistakable(r: Request) { forall q :: CacheKey(q) == CacheKey(r) ==> q == r }

  lemma UnmistakableIff(r: Request)
    ensures Unmistakable(r) <==> Plain(r) && NulFree(r.version)
  {
    if !Plain(r) {
      PlainTwinFacts(r);
      assert PlainTwin(r) != r;
    } else if !NulFree(r.version) {
      var i := FirstNul(r.version);
      var q := Request(r.provider, r.key + [NUL] + r.version[..i], r.version[i + 1..]);
      assert r.version == r.version[..i] + [NUL] + r.version[i + 1..];
      assert q.key + [NUL] + q.version == r.key + [NUL] + r.version;
      assert |q.key| > |r.key|;
      assert CacheKey(q) == CacheKey(r);
    } else {
      forall q | CacheKey(q) == CacheKey(r) ensures q == r {
        PartsCount(r, q);
      }
    }
  }

  function Nuls(s: string): nat { if s == "" then 0 else (if s[0] == NUL then 1 else 0) + Nuls(s[1..]) }

  lemma {:induction false} NulsOfConcat(a: string, b: string)
    ensures Nuls(a + b) == Nuls(a) + Nuls(b)
  {
    if a == "" {
      assert a + b == b;
    } else {
      assert (a + b)[1..] == a[1..] + b;
      NulsOfConcat(a[1..], b);
    }
  }

  lemma {:induction false} NoNuls(s: string)
    ensures NulFree(s) <==> Nuls(s) == 0
  {
    if s != "" {
      NoNuls(s[1..]);
      assert s == [s[0]] + s[1..];
    }
  }

  lemma KeyNuls(r: Request)
    ensures Nuls(CacheKey(r)) == Nuls(r.provider) + Nuls(r.key) + Nuls(r.version) + 2
  {
    assert CacheKey(r) == r.provider + ([NUL] + (r.key + ([NUL] + r.version)));
    NulsOfConcat(r.provider, [NUL] + (r.key + ([NUL] + r.version)));
    NulsOfConcat([NUL], r.key + ([NUL] + r.version));
    NulsOfConcat(r.key, [NUL] + r.version);
    NulsOfConcat([NUL], r.version);
    assert Nuls([NUL]) == 1 + Nuls([]);
  }

  lemma PartsCount(r: Request, q: Request)
    requires Plain(r) && NulFree(r.version) && CacheKey(q) == CacheKey(r)
    ensures q == r
  {
    KeyNuls(r);
    KeyNuls(q);
    NoNuls(r.provider);
    NoNuls(r.key);
    NoNuls(r.version);
    NoNuls(q.provider);
    NoNuls(q.key);
    CacheKeyInjective(r, q);
  }

  ghost predicate Clean(read: seq<Request>) {
    forall i :: 0 <= i < |read| ==> Plain(read[i])
  }

  /** Each secret reaches the provider at most once in a session. */
  lemma ReadAtMostOnce(init: State, events: seq<Event>, n: nat)
    requires Run(init, events) && n <= |events|
    ensures var read := Before(init, events, n).read; forall i, j :: 0 <= i < j < |read| ==> read[i] != read[j]
  {
    RunInv(init, events, n);
  }

  /** Any two answers for one secret are the same value or error. */
  lemma SameAnswer(init: State, events: seq<Event>, n: nat)
    requires Run(init, events) && n <= |events|
    ensures var c := Before(init, events, n).callers;
            forall t, u :: t in c && u in c && c[t].Returned? && c[u].Returned? && c[t].req == c[u].req ==>
              c[t].answer == c[u].answer
  {
    RunInv(init, events, n);
  }

  /** The answer of t comes from a read of exactly the secret it asked for, made
      by the first caller that asked. */
  ghost predicate OwnAnswer(s: State, t: nat)
    requires t in s.callers && s.callers[t].Returned?
  {
    var r := s.callers[t].req;
    && r in s.read && CacheKey(r) in s.entries
    && var u := s.entries[CacheKey(r)].leader;
       u in s.callers && s.callers[u] == Returned(r, s.callers[t].answer)
  }

  /** With NUL-free providers and keys, every answer is the caller's own secret's. */
  lemma AnswersOwnSecret(init: State, events: seq<Event>, n: nat)
    requires Run(init, events) && n <= |events|
    ensures var s := Before(init, events, n);
            Clean(s.read) ==>
              forall t :: t in s.callers && s.callers[t].Returned? && Plain(s.callers[t].req) ==> OwnAnswer(s, t)
  {
    RunInv(init, events, n);
    var s := Before(init, events, n);
    if Clean(s.read) {
      forall t | t in s.callers && s.callers[t].Returned? && Plain(s.callers[t].req)
        ensures OwnAnswer(s, t)
      {
        OwnAnswerAt(s, t);
      }
    }
  }

  lemma OwnAnswerAt(s: State, t: nat)
    requires Inv(s) && Clean(s.read) && t in s.callers && s.callers[t].Returned?
    requires Plain(s.callers[t].req)
    ensures OwnAnswer(s, t)
  {
    var r := s.callers[t].req;
    var e := s.entries[CacheKey(r)];
    var i :| 0 <= i < |s.read| && s.read[i] == e.asked;
    CacheKeyInjective(r, e.asked);
  }

  /** Nobody waits in vain: while a caller waits, either its answer is there or
      the first caller is still reading. */
  lemma WaitersProgress(s: State, t: nat)
    requires Inv(s) && t in s.callers && s.callers[t].Waiting?
    ensures var e := s.entries[CacheKey(s.callers[t].req)];
            (exists s' :: Next(s, s', Wake(t))) || (e.leader in s.callers && s.callers[e.leader].Fetching?)
  {
    var e := s.entries[CacheKey(s.callers[t].req)];
    if e.answer.Some? {
      assert Next(s, s.(callers := s.callers[t := Returned(s.callers[t].req, e.answer.value)]), Wake(t));
    }
  }

  /** The failing run: a is asked for and answered, then b with the same table
      key is answered from a's entry and never reaches the provider. */
  function MixUp(a: Request, b: Request, v: Answer): seq<Event> {
    var k := CacheKey(a);
    var s1 := State(map[k := Entry(0, a, None)], map[0 := Fetching(a)], [a]);
    var s2 := State(map[k := Entry(0, a, Some(v))], map[0 := Returned(a, v)], [a]);
    var s3 := s2.(callers := map[0 := Returned(a, v), 1 := Waiting(b)]);
    var s4 := s2.(callers := map[0 := Returned(a, v), 1 := Returned(b, v)]);
    [Event(Arrive(0, a), s1), Event(Finish(0, v), s2), Event(Arrive(1, b), s3), Event(Wake(1), s4)]
  }

  lemma MixUpRuns(a: Request, b: Request, v: Answer)
    requires a != b && CacheKey(a) == CacheKey(b)
    ensures Run(State(map[], map[], []), MixUp(a, b, v))
    ensures var s := MixUp(a, b, v)[3].after; s.callers[1] == Returned(b, v) && s.read == [a] && b !in s.read
  {
    hide CacheKey;
    var init, es := State(map[], map[], []), MixUp(a, b, v);
    assert Next(init, es[0].after, Arrive(0, a)) by { assert [] + [a] == [a]; }
    assert Next(es[0].after, es[1].after, Finish(0, v));
    assert Next(es[1].after, es[2].after, Arrive(1, b));
    assert Next(es[2].after, es[3].after, Wake(1));
    hide Next;
    forall i | 0 <= i < |es| ensures Next(Before(init, es, i), es[i].after, es[i].step) {
      assert i == 0 || i == 1 || i == 2 || i == 3;
    }
  }

  /** In some session, a caller of r gets an answer although r was never read. */
  ghost predicate Misanswered(r: Request) {
    exists init, events: seq<Event>, t: nat ::
      Run(init, events) && MisansweredIn(Before(init, events, |events|), t, r)
  }

  ghost predicate MisansweredIn(s: State, t: nat, r: Request) {
    t in s.callers && s.callers[t].Returned? && s.callers[t].req == r && r !in s.read
  }

  /** Exactly the requests with a NUL in some part can be answered with another
      secret's value. */
  lemma MisansweredIff(r: Request)
    ensures Misanswered(r) <==> !(NulFree(r.provider) && NulFree(r.key) && NulFree(r.version))
  {
    UnmistakableIff(r);
    if !Unmistakable(r) {
      var q :| CacheKey(q) == CacheKey(r) && q != r;
      MixUpRuns(q, r, Ok(Null));
      var es := MixUp(q, r, Ok(Null));
      assert MisansweredIn(Before(State(map[], map[], []), es, |es|), 1, r);
    } else if Misanswered(r) {
      var init, events: seq<Event>, t: nat :| Run(init, events) && MisansweredIn(Before(init, events, |events|), t, r);
      RunInv(init, events, |events|);
      AskedIsAnother(Before(init, events, |events|), t, r);
    }
  }

  lemma AskedIsAnother(s: State, t: nat, r: Request)
    requires Inv(s) && MisansweredIn(s, t, r)
    ensures !Unmistakable(r)
  {
    hide CacheKey;
    var e := s.entries[CacheKey(r)];
    assert CacheKey(e.asked) == CacheKey(r) && e.asked in s.read;
  }
}
