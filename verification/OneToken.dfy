/**
 * Which tokens survive logins that never fail, as a function of how the store writes and reads a token.
 * The in-memory store reads back what it wrote; the Redis store writes a string raw but reads it as JSON.
 */
module OneToken {
  import opened Wrappers
  import opened Encoding
  import opened Sequences
  import opened TokenProtocol
  import opened TykHandler
  import CacheKeys

  /** A login that does not fail: whose it is, of which kind, and the token it is given. */
  datatype Visit = Visit(key: Key, flow: Flow, token: Token)

  function CleanEnv(t: Token): Env
  {
    Env(true, Accepted, Issued(t), true)
  }

  /** The latest token of every identity. */
  function Latest(vs: seq<Visit>): map<Key, Token>
  {
    if vs == [] then map[]
    else
      var n := |vs| - 1;
      Latest(vs[..n])[vs[n].key := vs[n].token]
  }

  /** Every token and whose it is. */
  function Issues(vs: seq<Visit>): map<Token, Key>
  {
    if vs == [] then map[]
    else
      var n := |vs| - 1;
      Issues(vs[..n])[vs[n].token := vs[n].key]
  }

  /** What the next login of an identity finds. */
  function LookupAfter(c: Codec, vs: seq<Visit>, key: Key): Lookup
  {
    if key !in Latest(vs) then NoToken
    else match c.dec(c.enc(Latest(vs)[key])) case None => LookupError case Some(v) => Stored(v)
  }

  /** What login `m` takes for the prior token of its identity. */
  function ReadBy(c: Codec, vs: seq<Visit>, m: nat): Option<Token>
    requires m < |vs|
  {
    var l := LookupAfter(c, vs[..m], vs[m].key);
    if l.Stored? then Some(l.token) else None
  }

  /** The steps of the logins. */
  function CleanRun(c: Codec, vs: seq<Visit>): seq<Action>
  {
    if vs == [] then []
    else
      var n, before := |vs| - 1, vs[..|vs| - 1];
      var l := LookupAfter(c, before, vs[n].key);
      CleanRun(c, before) + Steps(n, vs[n].key, vs[n].flow, true, l, CleanEnv(vs[n].token))
  }

  ghost predicate Distinct(vs: seq<Visit>)
  {
    forall i, j :: 0 <= i < j < |vs| ==> vs[i].token != vs[j].token
  }

  /** No later login takes this token for a prior one. */
  ghost predicate Survives(c: Codec, vs: seq<Visit>, i: nat)
    requires i < |vs|
  {
    forall m :: i < m < |vs| ==> ReadBy(c, vs, m) != Some(vs[i].token)
  }

  ghost function Survivors(c: Codec, vs: seq<Visit>): set<Token>
  {
    set i | 0 <= i < |vs| && Survives(c, vs, i) :: vs[i].token
  }

  /** The world after these logins. */
  ghost predicate CleanWorld(w: World, c: Codec, vs: seq<Visit>)
  {
    && (forall r :: r in w.logins ==> r < |vs| && w.logins[r].phase.Done?)
    && w.home == Issues(vs)
    && w.cache == Latest(vs)
    && w.live == Survivors(c, vs)
  }

  // ---------- one login ----------

  /** What a login with this lookup does to the tokens. */
  ghost predicate Renews(w: World, w': World, run: nat, key: Key, l: Lookup, t: Token)
  {
    && w'.live == (if l.Stored? then w.live - {l.token} else w.live) + {t}
    && w'.home == w.home[t := key]
    && w'.cache == w.cache[key := t]
    && w'.logins.Keys == w.logins.Keys + {run} && w'.logins[run].phase.Done?
    && forall r :: r in w.logins && r != run ==> w'.logins[r] == w.logins[r]
  }

  /** What a login has done when it is about to ask for its token. */
  ghost predicate Prepared(w: World, w': World, run: nat, key: Key, l: Lookup)
  {
    && w'.live == (if l.Stored? then w.live - {l.token} else w.live)
    && w'.home == w.home && w'.cache == w.cache
    && w'.logins.Keys == w.logins.Keys + {run}
    && w'.logins[run].phase.Requesting? && w'.logins[run].key == key
    && forall r :: r in w.logins && r != run ==> w'.logins[r] == w.logins[r]
  }

  lemma AskAndStore(acts: seq<Action>, run: nat, t: Token, w: World, key: Key, l: Lookup)
    requires Exec(acts).Some? && Prepared(w, Exec(acts).value, run, key, l) && t !in w.home
    ensures var r := Exec(acts + TokenSteps(run, CleanEnv(t))); r.Some? && Renews(w, r.value, run, key, l, t)
  {
    ExecTwo(acts, Ask(run, Granted(t)), Store(run, true));
    assert TokenSteps(run, CleanEnv(t)) == [Ask(run, Granted(t)), Store(run, true)];
  }

  /** The lookup is possible: it finds something exactly when something is cached. */
  predicate Possible(w: World, key: Key, l: Lookup)
  {
    l.LookupError? || (l == NoToken && key !in w.cache) || (l.Stored? && key in w.cache)
  }

  lemma LookUpSteps(acts: seq<Action>, run: nat, key: Key, l: Lookup)
    requires Exec(acts).Some?
    requires var w := Exec(acts).value;
      Possible(w, key, l) && InPhase(w, run, (p: Phase) => p.Reading?) && w.logins[run].key == key
    ensures var r := Exec(acts + LookupSteps(run, l, Accepted));
      r.Some? && Prepared(Exec(acts).value, r.value, run, key, l)
  {
    match l {
      case LookupError => ExecSnoc(acts, ReadFails(run));
      case NoToken => ExecSnoc(acts, Read(run, None));
      case Stored(t) => ReadAndDrop(acts, run, key, t);
    }
  }

  lemma ReadAndDrop(acts: seq<Action>, run: nat, key: Key, t: Token)
    requires Exec(acts).Some?
    requires var w := Exec(acts).value;
      key in w.cache && InPhase(w, run, (p: Phase) => p.Reading?) && w.logins[run].key == key
    ensures var r := Exec(acts + [Read(run, Some(t)), Invalidate(run, Accepted)]);
      r.Some? && Prepared(Exec(acts).value, r.value, run, key, Stored(t))
  {
    ExecTwo(acts, Read(run, Some(t)), Invalidate(run, Accepted));
  }

  lemma BeginAndLookUp(acts: seq<Action>, run: nat, key: Key, flow: Flow, l: Lookup)
    requires Exec(acts).Some? && run !in Exec(acts).value.logins && Possible(Exec(acts).value, key, l)
    ensures var r := Exec(acts + [Begin(run, key, flow, true)] + LookupSteps(run, l, Accepted));
      r.Some? && Prepared(Exec(acts).value, r.value, run, key, l)
  {
    ExecSnoc(acts, Begin(run, key, flow, true));
    LookUpSteps(acts + [Begin(run, key, flow, true)], run, key, l);
  }

  lemma CleanLogin(acts: seq<Action>, run: nat, key: Key, flow: Flow, l: Lookup, t: Token)
    requires Exec(acts).Some? && run !in Exec(acts).value.logins && Possible(Exec(acts).value, key, l)
    requires t !in Exec(acts).value.home
    ensures var r := Exec(acts + Steps(run, key, flow, true, l, CleanEnv(t)));
      r.Some? && Renews(Exec(acts).value, r.value, run, key, l, t)
  {
    BeginAndLookUp(acts, run, key, flow, l);
    AskAndStore(acts + [Begin(run, key, flow, true)] + LookupSteps(run, l, Accepted), run, t, Exec(acts).value, key, l);
    StepsJoin(acts, run, key, flow, true, l, CleanEnv(t));
  }

  // ---------- all logins ----------

  lemma {:induction false} IssuesAre(vs: seq<Visit>, t: Token)
    ensures t in Issues(vs) <==> exists i :: 0 <= i < |vs| && vs[i].token == t
  {
    if vs != [] {
      var n := |vs| - 1;
      IssuesAre(vs[..n], t);
      if i :| 0 <= i < |vs| && vs[i].token == t {
        assert i < n ==> vs[..n][i] == vs[i];
      }
    }
  }

  lemma ReadByPrefix(c: Codec, vs: seq<Visit>, n: nat, m: nat)
    requires m < n <= |vs|
    ensures ReadBy(c, vs[..n], m) == ReadBy(c, vs, m)
  {
    assert vs[..n][..m] == vs[..m];
  }

  lemma SurvivesLonger(c: Codec, vs: seq<Visit>, i: nat)
    requires i < |vs| - 1
    ensures Survives(c, vs, i) <==> Survives(c, vs[..|vs| - 1], i) && ReadBy(c, vs, |vs| - 1) != Some(vs[i].token)
  {
    var n := |vs| - 1;
    forall m | i < m < n ensures ReadBy(c, vs[..n], m) == ReadBy(c, vs, m) {
      ReadByPrefix(c, vs, n, m);
    }
  }

  lemma SurvivorsGrow(c: Codec, vs: seq<Visit>)
    requires vs != [] && Distinct(vs)
    ensures var n := |vs| - 1; var r := ReadBy(c, vs, n);
      var before := Survivors(c, vs[..n]);
      Survivors(c, vs) == (if r.Some? then before - {r.value} else before) + {vs[n].token}
  {
    var n := |vs| - 1;
    forall i | 0 <= i < n
      ensures Survives(c, vs, i) <==> Survives(c, vs[..n], i) && ReadBy(c, vs, n) != Some(vs[..n][i].token)
    {
      SurvivesLonger(c, vs, i);
    }
    assert Survives(c, vs, n);
  }

  lemma CleanWorldGrows(w: World, w': World, c: Codec, vs: seq<Visit>)
    requires vs != [] && Distinct(vs)
    requires var n := |vs| - 1;
      CleanWorld(w, c, vs[..n]) && Renews(w, w', n, vs[n].key, LookupAfter(c, vs[..n], vs[n].key), vs[n].token)
    ensures CleanWorld(w', c, vs)
  {
    SurvivorsGrow(c, vs);
  }

  /** After failure-free logins of any identities exactly the survivors are live. */
  lemma {:induction false} CleanRunLeaves(c: Codec, vs: seq<Visit>)
    requires Distinct(vs)
    ensures Exec(CleanRun(c, vs)).Some? && CleanWorld(Exec(CleanRun(c, vs)).value, c, vs)
  {
    if vs == [] {
      assert Survivors(c, vs) == {};
    } else {
      var n := |vs| - 1;
      var before, v := vs[..n], vs[n];
      CleanRunLeaves(c, before);
      IssuesAre(before, v.token);
      CleanLogin(CleanRun(c, before), n, v.key, v.flow, LookupAfter(c, before, v.key), v.token);
      CleanWorldGrows(Exec(CleanRun(c, before)).value, Exec(CleanRun(c, vs)).value, c, vs);
    }
  }

  // ---------- the handler ----------

  datatype Attempt = Attempt(userId: string, provider: string, flow: Flow, token: Token)

  function VisitOf(profileId: string, a: Attempt): Visit
  {
    Visit(CacheKeys.IdWithProfile(profileId, a.userId, a.provider), a.flow, a.token)
  }

  function Visits(profileId: string, attempts: seq<Attempt>): seq<Visit>
  {
    seq(|attempts|, i requires 0 <= i < |attempts| => VisitOf(profileId, attempts[i]))
  }

  /** The handler has been through these logins and no others. */
  ghost predicate WentThrough(h: TykIdentityHandler, vs: seq<Visit>)
    reads h
  {
    && h.Valid() && h.oneToken && h.runs == |vs|
    && h.acts == CleanRun(h.codec, vs) && CleanWorld(h.world, h.codec, vs)
  }

  /** A login of the kind the attempt asks for. */
  method Complete(h: TykIdentityHandler, a: Attempt, env: Env) returns (outcome: Outcome)
    requires h.Valid() && (h.oneToken ==> Idle(h.world)) && h.Honest(env.api)
    modifies h
    ensures h.Valid() && h.runs == old(h.runs) + 1
    ensures var key := VisitOf(h.profileId, a).key;
      var l := LookUp(h.codec, h.oneToken, old(h.store), key, env.readOk);
      && h.acts == old(h.acts) + Steps(old(h.runs), key, a.flow, h.oneToken, l, env)
      && outcome == OutcomeOf(a.flow, l, env)
  {
    match a.flow
    case TokenAuth =>
      outcome := h.CompleteIdentityActionForTokenAuth(a.userId, a.provider, env);
    case OAuth =>
      outcome := h.CompleteIdentityActionForOAuth(a.userId, a.provider, env);
  }

  /** The next of these logins. */
  method LogIn(h: TykIdentityHandler, attempts: seq<Attempt>, i: nat) returns (outcome: Outcome)
    requires i < |attempts| && attempts[i].token != ""
    requires Distinct(Visits(h.profileId, attempts)) && WentThrough(h, Visits(h.profileId, attempts)[..i])
    modifies h
    ensures WentThrough(h, Visits(h.profileId, attempts)[..i + 1]) && outcome == LoggedIn(attempts[i].token)
  {
    var a := attempts[i];
    ghost var vs := Visits(h.profileId, attempts)[..i + 1];
    assert vs[..i] == Visits(h.profileId, attempts)[..i] && vs[i] == VisitOf(h.profileId, a);
    IssuesAre(vs[..i], a.token);
    outcome := Complete(h, a, CleanEnv(a.token));
    CleanRunLeaves(h.codec, vs);
  }

  method NewHandler(profileId: string, codec: Codec) returns (h: TykIdentityHandler)
    ensures fresh(h) && h.profileId == profileId && h.codec == codec && WentThrough(h, [])
  {
    h := new TykIdentityHandler(profileId, codec, true);
    CleanRunLeaves(codec, []);
  }

  /** A new handler through any failure-free logins: its steps are the clean run, so its live tokens the survivors. */
  method LogInAll(profileId: string, codec: Codec, attempts: seq<Attempt>) returns (h: TykIdentityHandler)
    requires Distinct(Visits(profileId, attempts)) && forall a :: a in attempts ==> a.token != ""
    ensures h.codec == codec && WentThrough(h, Visits(profileId, attempts))
    ensures h.world.live == Survivors(codec, Visits(profileId, attempts))
  {
    h := NewHandler(profileId, codec);
    ghost var vs := Visits(profileId, attempts);
    for i := 0 to |attempts|
      invariant fresh(h) && h.profileId == profileId && h.codec == codec
      invariant WentThrough(h, vs[..i])
    {
      var outcome := LogIn(h, attempts, i);
    }
    assert vs[..|attempts|] == vs;
  }

  // ---------- when one token is left ----------

  /** No token reads back as another one. */
  ghost predicate NoMixUp(c: Codec, vs: seq<Visit>)
  {
    forall i, j :: 0 <= i < |vs| && 0 <= j < |vs| && i != j ==> c.dec(c.enc(vs[i].token)) != Some(vs[j].token)
  }

  predicate ReadsBack(c: Codec, t: Token)
  {
    c.dec(c.enc(t)) == Some(t)
  }

  ghost predicate Renewed(vs: seq<Visit>, i: nat)
    requires i < |vs|
  {
    exists m :: i < m < |vs| && vs[m].key == vs[i].key
  }

  /** The latest token of an identity is that of some login of it, after which there was none. */
  lemma {:induction false} LatestIs(vs: seq<Visit>, key: Key) returns (i: nat)
    requires key in Latest(vs)
    ensures i < |vs| && vs[i].key == key && Latest(vs)[key] == vs[i].token && !Renewed(vs, i)
  {
    var n := |vs| - 1;
    if vs[n].key == key {
      i := n;
    } else {
      i := LatestIs(vs[..n], key);
      assert forall m :: i < m < n ==> vs[..n][m] == vs[m];
    }
  }

  /** The first login of the same identity after login `i` finds its token cached. */
  lemma {:induction false} NextFinds(c: Codec, vs: seq<Visit>, i: nat) returns (m: nat)
    requires i < |vs| && Renewed(vs, i)
    ensures i < m < |vs| && vs[i].key in Latest(vs[..m]) && Latest(vs[..m])[vs[i].key] == vs[i].token
    ensures vs[m].key == vs[i].key
  {
    m := i + 1;
    assert vs[..m][..i] == vs[..i];
    while vs[m].key != vs[i].key
      invariant i < m < |vs| && exists k :: m <= k < |vs| && vs[k].key == vs[i].key
      invariant vs[i].key in Latest(vs[..m]) && Latest(vs[..m])[vs[i].key] == vs[i].token
      decreases |vs| - m
    {
      assert vs[..m + 1][..m] == vs[..m];
      m := m + 1;
    }
  }

  /** A token survives exactly when its identity does not come back, or it does not read back. */
  lemma SurvivesExactlyWhen(c: Codec, vs: seq<Visit>, i: nat)
    requires Distinct(vs) && NoMixUp(c, vs) && i < |vs|
    ensures Survives(c, vs, i) <==> !(Renewed(vs, i) && ReadsBack(c, vs[i].token))
  {
    if Renewed(vs, i) && ReadsBack(c, vs[i].token) {
      var m := NextFinds(c, vs, i);
      assert ReadBy(c, vs, m) == Some(vs[i].token);
    } else {
      forall m | i < m < |vs| ensures ReadBy(c, vs, m) != Some(vs[i].token) {
        if vs[m].key in Latest(vs[..m]) {
          var j := LatestIs(vs[..m], vs[m].key);
          assert j != i ==> c.dec(c.enc(vs[j].token)) != Some(vs[i].token);
          assert j == i ==> vs[m].key == vs[i].key;
        }
      }
    }
  }

  ghost predicate LiveIs(c: Codec, vs: seq<Visit>, key: Key, live: set<Token>)
  {
    forall t :: t in live <==> exists i :: 0 <= i < |vs| && vs[i].key == key && vs[i].token == t && Survives(c, vs, i)
  }

  lemma {:induction false} IssuedTo(vs: seq<Visit>, i: nat)
    requires Distinct(vs) && i < |vs|
    ensures vs[i].token in Issues(vs) && Issues(vs)[vs[i].token] == vs[i].key
  {
    var n := |vs| - 1;
    if i < n { IssuedTo(vs[..n], i); }
  }

  lemma LiveTokens(c: Codec, vs: seq<Visit>, key: Key)
    requires Distinct(vs)
    ensures Exec(CleanRun(c, vs)).Some? && LiveIs(c, vs, key, LiveFor(Exec(CleanRun(c, vs)).value, key))
  {
    CleanRunLeaves(c, vs);
    forall i | 0 <= i < |vs| ensures vs[i].token in Issues(vs) && Issues(vs)[vs[i].token] == vs[i].key {
      IssuedTo(vs, i);
    }
  }

  /**
   * Logins of any identities in any order, none of which fails: an identity is left with one live token
   * exactly when every token it had before its latest reads back from the store.
   */
  lemma OneTokenExactlyWhen(c: Codec, vs: seq<Visit>, key: Key)
    requires Distinct(vs) && NoMixUp(c, vs) && key in Latest(vs)
    ensures Exec(CleanRun(c, vs)).Some?
    ensures |LiveFor(Exec(CleanRun(c, vs)).value, key)| == 1
      <==> EarlierReadBack(c, vs, key)
  {
    LiveTokens(c, vs, key);
    OneSurvivor(c, vs, key, LiveFor(Exec(CleanRun(c, vs)).value, key));
  }

  /** Every token of the identity but its latest reads back. */
  ghost predicate EarlierReadBack(c: Codec, vs: seq<Visit>, key: Key)
  {
    forall i :: 0 <= i < |vs| && vs[i].key == key && Renewed(vs, i) ==> ReadsBack(c, vs[i].token)
  }

  lemma OneSurvivor(c: Codec, vs: seq<Visit>, key: Key, live: set<Token>)
    requires Distinct(vs) && NoMixUp(c, vs) && key in Latest(vs) && LiveIs(c, vs, key, live)
    ensures |live| == 1 <==> EarlierReadBack(c, vs, key)
  {
    var last := LatestIs(vs, key);
    SurvivesExactlyWhen(c, vs, last);
    assert vs[last].token in live;
    if EarlierReadBack(c, vs, key) {
      forall t | t in live ensures t == vs[last].token {
        OnlyLatestSurvives(c, vs, key, last, t);
      }
      assert live == {vs[last].token};
    } else {
      var i := AnotherSurvives(c, vs, key);
      assert vs[i].token in live;
      SubsetBound({vs[i].token, vs[last].token}, live);
    }
  }

  lemma AnotherSurvives(c: Codec, vs: seq<Visit>, key: Key) returns (i: nat)
    requires Distinct(vs) && NoMixUp(c, vs) && !EarlierReadBack(c, vs, key)
    ensures i < |vs| && vs[i].key == key && Survives(c, vs, i) && Renewed(vs, i)
  {
    i :| 0 <= i < |vs| && vs[i].key == key && Renewed(vs, i) && !ReadsBack(c, vs[i].token);
    SurvivesExactlyWhen(c, vs, i);
  }

  lemma OnlyLatestSurvives(c: Codec, vs: seq<Visit>, key: Key, last: nat, t: Token)
    requires Distinct(vs) && NoMixUp(c, vs) && EarlierReadBack(c, vs, key)
    requires last < |vs| && vs[last].key == key && !Renewed(vs, last)
    requires exists i :: 0 <= i < |vs| && vs[i].key == key && vs[i].token == t && Survives(c, vs, i)
    ensures t == vs[last].token
  {
    var i :| 0 <= i < |vs| && vs[i].key == key && vs[i].token == t && Survives(c, vs, i);
    OnlyLastIsNotRenewed(vs, i, last);
    SurvivesExactlyWhen(c, vs, i);
  }

  lemma OnlyLastIsNotRenewed(vs: seq<Visit>, i: nat, last: nat)
    requires i < |vs| && last < |vs| && vs[i].key == vs[last].key && !Renewed(vs, last)
    ensures i == last || Renewed(vs, i)
  {
  }

  // ---------- the two stores ----------

  /** encoding/json on strings: all are written, and only a quoted text, or null, is read as one. */
  ghost predicate OnStrings(j: Json<string>)
  {
    && j.Lawful()
    && (forall s: string :: j.marshal(s).Some?)
    && (forall s: string :: j.unmarshal(s).Some? ==> '\"' in s || HasNull(s))
  }

  ghost predicate HasNull(s: string)
  {
    exists i: nat :: OccursAt(s, "null", i)
  }

  /** InMemoryBackend: always JSON, both ways. */
  function InMemory(j: Json<string>): Codec
  {
    Codec((t: Token) => match j.marshal(t) case Some(text) => text case None => "", j.unmarshal)
  }

  /** RedisBackend: a string is stored as it is, but read back as JSON. */
  function Redis(j: Json<string>): Codec
  {
    Codec((t: Token) => t, j.unmarshal)
  }

  /** A key identifier with no quote in it, and no "null" either. */
  ghost predicate Bare(t: Token)
  {
    '\"' !in t && !HasNull(t)
  }

  /** Over the in-memory store, failure-free logins leave every identity one live token. */
  lemma InMemoryKeepsOne(j: Json<string>, vs: seq<Visit>, key: Key)
    requires OnStrings(j) && Distinct(vs) && key in Latest(vs)
    ensures Exec(CleanRun(InMemory(j), vs)).Some?
    ensures |LiveFor(Exec(CleanRun(InMemory(j), vs)).value, key)| == 1
  {
    var c := InMemory(j);
    assert forall t: Token :: c.dec(c.enc(t)) == Some(t);
    OneTokenExactlyWhen(c, vs, key);
  }

  /** Over Redis no bare token reads back, so failure-free logins leave all their tokens live. */
  lemma RedisKeepsAll(j: Json<string>, vs: seq<Visit>)
    requires OnStrings(j) && Distinct(vs) && forall v :: v in vs ==> Bare(v.token)
    ensures Exec(CleanRun(Redis(j), vs)).Some?
    ensures forall t :: t in Exec(CleanRun(Redis(j), vs)).value.live <==> exists i :: 0 <= i < |vs| && vs[i].token == t
  {
    var c := Redis(j);
    assert forall i :: 0 <= i < |vs| ==> vs[i] in vs && c.dec(c.enc(vs[i].token)) == None;
    CleanRunLeaves(c, vs);
    forall i | 0 <= i < |vs| ensures Survives(c, vs, i) {
      SurvivesExactlyWhen(c, vs, i);
    }
  }
}
