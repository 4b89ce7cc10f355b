/**
 * The one-token-per-identity protocol as a step system: any number of logins, each of which reads the
 * cached token of its identity, invalidates it, asks for a new one and caches that, interleaved at will
 * and failing at will. A cached token may also read back as something else; TykHandler relates the cache
 * to real stores.
 */
module TokenProtocol {
  import opened Wrappers

  type Key = string
  type Token = string

  datatype Flow = TokenAuth | OAuth

  /** What a login knows about the cached token when it asks for a new one. */
  datatype Seen = Skipped | Missing | Unreadable | Found(token: Token)

  datatype Phase =
    | Reading                              // about to call GetKey
    | Invalidating(prior: Token)           // about to call InvalidateToken on the cached token
    | Misreading(prior: Token)             // about to call it on what the cached token read back as
    | Requesting(seen: Seen)               // about to request a token
    | Storing(seen: Seen, made: Token)     // about to call SetKey
    | Done

  datatype Login = Login(key: Key, flow: Flow, phase: Phase)

  /** What can go wrong in a login; `run` identifies the login. */
  datatype Fault =
    | ReadFault(run: nat)        // GetKey failed, or gave something else than was cached
    | InvalidateFault(run: nat)  // InvalidateToken failed
    | ReplyFault(run: nat)       // a token was made but the reply did not bring it
    | StoreFault(run: nat)       // SetKey failed
    | LostUpdate(run: nat)       // SetKey replaced a token this login had not read

  datatype Reply = Accepted | Errored | Unauthorised
  datatype Issue = Granted(token: Token) | Denied | Unheard(token: Token)

  datatype Action =
    | Begin(run: nat, key: Key, flow: Flow, oneToken: bool)
    | Read(run: nat, got: Option<Token>)
    | ReadFails(run: nat)
    | Invalidate(run: nat, reply: Reply)
    | Ask(run: nat, issue: Issue)
    | Store(run: nat, ok: bool)

  datatype World = World(
    cache: map<Key, Token>,     // the identity cache
    live: set<Token>,           // tokens the gateway accepts
    home: map<Token, Key>,      // every token ever made, and the identity it was made for
    logins: map<nat, Login>,
    faults: set<Fault>,         // what has gone wrong so far
    blame: map<Fault, Token>)   // the token each fault may have leaked

  const INIT := World(map[], {}, map[], map[], {}, map[])

  predicate InPhase(w: World, run: nat, p: Phase -> bool)
  {
    run in w.logins && p(w.logins[run].phase)
  }

  predicate Enabled(w: World, a: Action)
  {
    match a
    case Begin(run, _, _, _) => run !in w.logins
    case Read(run, got) =>
      InPhase(w, run, (p: Phase) => p.Reading?) && (got.Some? <==> w.logins[run].key in w.cache)
    case ReadFails(run) => InPhase(w, run, (p: Phase) => p.Reading?)
    case Invalidate(run, _) => InPhase(w, run, (p: Phase) => p.Invalidating? || p.Misreading?)
    case Ask(run, issue) =>
      InPhase(w, run, (p: Phase) => p.Requesting?) && (issue.Denied? || issue.token !in w.home)
    case Store(run, _) => InPhase(w, run, (p: Phase) => p.Storing?)
  }

  function To(w: World, run: nat, p: Phase): World
    requires run in w.logins
  {
    w.(logins := w.logins[run := w.logins[run].(phase := p)])
  }

  function Charge(w: World, f: Fault, t: Token): World
  {
    w.(faults := w.faults + {f}, blame := w.blame[f := t])
  }

  function Make(w: World, run: nat, t: Token): World
    requires run in w.logins
  {
    w.(live := w.live + {t}, home := w.home[t := w.logins[run].key])
  }

  /** A cached token this login is about to replace without having read it. */
  predicate Displaces(w: World, key: Key, seen: Seen)
  {
    key in w.cache && seen != Found(w.cache[key])
  }

  /** The fault to which a displaced token is charged. */
  function Displacement(run: nat, seen: Seen): Fault
  {
    if seen.Unreadable? then ReadFault(run) else LostUpdate(run)
  }

  function Apply(w: World, a: Action): (w': World)
    requires Enabled(w, a)
  {
    match a
    case Begin(run, key, flow, oneToken) =>
      w.(logins := w.logins[run := Login(key, flow, if oneToken then Reading else Requesting(Skipped))])
    case Read(run, got) =>
      match got {
        case None => To(w, run, Requesting(Missing))
        case Some(t) =>
          if w.cache[w.logins[run].key] == t then To(w, run, Invalidating(t))
          else To(w.(faults := w.faults + {ReadFault(run)}), run, Misreading(t))
      }
    case ReadFails(run) =>
      To(w.(faults := w.faults + {ReadFault(run)}), run, Requesting(Unreadable))
    case Invalidate(run, reply) =>
      var l := w.logins[run];
      var prior := l.phase.prior;
      var seen := if l.phase.Invalidating? then Found(prior) else Unreadable;
      if reply.Accepted? then To(w.(live := w.live - {prior}), run, Requesting(seen))
      else
        var stop := reply.Unauthorised? && l.flow.TokenAuth?;
        var w1 := if l.phase.Invalidating? then Charge(w, InvalidateFault(run), prior)
          else w.(faults := w.faults + {InvalidateFault(run)});
        To(w1, run, if stop then Done else Requesting(seen))
    case Ask(run, issue) =>
      match issue {
        case Denied => To(w, run, Done)
        case Granted(t) => To(Make(w, run, t), run, Storing(w.logins[run].phase.seen, t))
        case Unheard(t) => To(Charge(Make(w, run, t), ReplyFault(run), t), run, Done)
      }
    case Store(run, ok) =>
      var l := w.logins[run];
      if !ok then To(Charge(w, StoreFault(run), l.phase.made), run, Done)
      else
        var w1 := if Displaces(w, l.key, l.phase.seen)
          then Charge(w, Displacement(run, l.phase.seen), w.cache[l.key]) else w;
        To(w1.(cache := w1.cache[l.key := l.phase.made]), run, Done)
  }

  // ---------- the invariant ----------

  ghost predicate Charged(w: World, f: Fault, t: Token)
  {
    f in w.blame && w.blame[f] == t
  }

  /** `t` has been charged to a fault. */
  ghost predicate Blamed(w: World, t: Token)
  {
    exists f :: Charged(w, f, t)
  }

  ghost predicate Holds(w: World, run: nat, t: Token)
  {
    run in w.logins && w.logins[run].phase.Storing? && w.logins[run].phase.made == t
  }

  /** Some login holds `t` between getting it and caching it. */
  ghost predicate Held(w: World, t: Token)
  {
    exists run :: Holds(w, run, t)
  }

  ghost predicate Cached(w: World, t: Token)
  {
    t in w.home && w.home[t] in w.cache && w.cache[w.home[t]] == t
  }

  ghost predicate MadeFor(w: World, t: Token, key: Key)
  {
    t in w.home && w.home[t] == key
  }

  /** `t` was made for `key`, and is dead or already charged to some fault. */
  ghost predicate Settled(w: World, key: Key, t: Token)
  {
    MadeFor(w, t, key) && (t in w.live ==> Blamed(w, t))
  }

  function Rank(p: Phase): nat
  {
    match p
    case Reading => 0
    case Invalidating(_) => 1
    case Misreading(_) => 1
    case Requesting(_) => 2
    case Storing(_, _) => 3
    case Done => 4
  }

  ghost predicate LoginOk(w: World, run: nat)
    requires run in w.logins
  {
    var l := w.logins[run];
    && (l.phase.Invalidating? ==> MadeFor(w, l.phase.prior, l.key))
    && ((l.phase.Requesting? || l.phase.Storing?) && l.phase.seen.Found? ==> Settled(w, l.key, l.phase.seen.token))
    && (l.phase.Storing? ==> MadeFor(w, l.phase.made, l.key))
  }

  ghost predicate BlameOk(w: World, f: Fault)
    requires f in w.blame
  {
    && f in w.faults
    && f.run in w.logins
    && MadeFor(w, w.blame[f], w.logins[f.run].key)
    && (if f.InvalidateFault? then 2 else 4) <= Rank(w.logins[f.run].phase)
  }

  /**
   * A live token is the cached one of its identity, or is held by a login between getting it and
   * caching it, or has been charged to a fault.
   */
  ghost predicate Accounted(w: World, t: Token)
  {
    t in w.home && (Cached(w, t) || Held(w, t) || Blamed(w, t))
  }

  ghost predicate Inv(w: World)
  {
    && (forall k :: k in w.cache ==> MadeFor(w, w.cache[k], k))
    && (forall t :: t in w.live ==> Accounted(w, t))
    && (forall run :: run in w.logins ==> LoginOk(w, run))
    && (forall f :: f in w.blame ==> BlameOk(w, f))
  }

  // ---------- every step keeps it ----------

  /** `w'` is `w` after login `run` moved one phase on: records only grow, and only `run` changes. */
  ghost predicate Moves(w: World, w': World, run: nat)
  {
    && run in w'.logins && w'.logins.Keys == w.logins.Keys + {run}
    && (forall r :: r in w.logins && r != run ==> w'.logins[r] == w.logins[r])
    && (run in w.logins ==>
      && w'.logins[run].key == w.logins[run].key && w'.logins[run].flow == w.logins[run].flow
      && Rank(w.logins[run].phase) < Rank(w'.logins[run].phase))
    && (forall t :: t in w.home ==> t in w'.home && w'.home[t] == w.home[t])
    && (forall f :: f in w.blame ==> f in w'.blame && w'.blame[f] == w.blame[f])
    && (forall t :: t in w'.live ==> t in w.live || t !in w.home)
    && w.faults <= w'.faults
  }

  lemma SettledStays(w: World, w': World, run: nat, key: Key, t: Token)
    requires Moves(w, w', run) && Settled(w, key, t)
    ensures Settled(w', key, t)
  {
    if t in w'.live {
      var f :| Charged(w, f, t);
      assert Charged(w', f, t);
    }
  }

  lemma LoginsStay(w: World, w': World, run: nat)
    requires Inv(w) && Moves(w, w', run) && LoginOk(w', run)
    ensures forall r :: r in w'.logins ==> LoginOk(w', r)
  {
    forall r | r in w'.logins && r != run ensures LoginOk(w', r) {
      assert LoginOk(w, r);
      var l := w.logins[r];
      if (l.phase.Requesting? || l.phase.Storing?) && l.phase.seen.Found? {
        SettledStays(w, w', run, l.key, l.phase.seen.token);
      }
    }
  }

  lemma BlamesStay(w: World, w': World, run: nat)
    requires Inv(w) && Moves(w, w', run)
    requires forall f :: f in w'.blame && f !in w.blame ==> BlameOk(w', f)
    ensures forall f :: f in w'.blame ==> BlameOk(w', f)
  {
    forall f | f in w.blame ensures BlameOk(w', f) {
      assert BlameOk(w, f);
    }
  }

  /** A live token stays accounted for, unless this very step uncaches it or lets it out of hand. */
  lemma AccountedStays(w: World, w': World, run: nat, t: Token)
    requires Moves(w, w', run) && Accounted(w, t)
    requires Cached(w, t) && !Blamed(w', t) ==> Cached(w', t)
    requires Holds(w, run, t) ==> Cached(w', t) || Blamed(w', t)
    ensures Accounted(w', t)
  {
    if Blamed(w, t) {
      var f :| Charged(w, f, t);
      assert Charged(w', f, t);
    } else if Held(w, t) && !Holds(w, run, t) {
      var r :| Holds(w, r, t);
      assert Holds(w', r, t);
    }
  }

  /** A move keeps the invariant if what the moving login itself touched is in order. */
  lemma MoveKeepsInv(w: World, w': World, run: nat)
    requires Inv(w) && Moves(w, w', run) && LoginOk(w', run)
    requires forall f :: f in w'.blame && f !in w.blame ==> BlameOk(w', f)
    requires forall k :: k in w'.cache ==> (k in w.cache && w'.cache[k] == w.cache[k]) || MadeFor(w', w'.cache[k], k)
    requires forall t :: t in w.live && Cached(w, t) && !Blamed(w', t) ==> Cached(w', t)
    requires forall t :: Holds(w, run, t) ==> Cached(w', t) || Blamed(w', t)
    requires forall t :: t in w'.live && t !in w.live ==> Accounted(w', t)
    ensures Inv(w')
  {
    LoginsStay(w, w', run);
    BlamesStay(w, w', run);
    forall t | t in w'.live && t in w.live ensures Accounted(w', t) {
      AccountedStays(w, w', run, t);
    }
  }

  lemma BeginKeepsInv(w: World, a: Action)
    requires Inv(w) && Enabled(w, a) && a.Begin?
    ensures Inv(Apply(w, a))
  {
    MoveKeepsInv(w, Apply(w, a), a.run);
  }

  lemma ReadKeepsInv(w: World, a: Action)
    requires Inv(w) && Enabled(w, a) && (a.Read? || a.ReadFails?)
    ensures Inv(Apply(w, a))
  {
    assert LoginOk(w, a.run);
    MoveKeepsInv(w, Apply(w, a), a.run);
  }

  lemma AcceptedKeepsInv(w: World, a: Action)
    requires Inv(w) && Enabled(w, a) && a.Invalidate? && a.reply.Accepted?
    ensures Inv(Apply(w, a))
  {
    assert LoginOk(w, a.run);
    MoveKeepsInv(w, Apply(w, a), a.run);
  }

  /** The fault of a step is new when the login makes it. */
  lemma FaultIsNew(w: World, f: Fault)
    requires Inv(w) && f.run in w.logins
    requires Rank(w.logins[f.run].phase) < if f.InvalidateFault? then 2 else 4
    ensures f !in w.blame
  {
    assert f in w.blame ==> BlameOk(w, f);
  }

  lemma RejectedKeepsInv(w: World, a: Action)
    requires Inv(w) && Enabled(w, a) && a.Invalidate? && !a.reply.Accepted?
    ensures Inv(Apply(w, a))
  {
    var w' := Apply(w, a);
    assert LoginOk(w, a.run);
    FaultIsNew(w, InvalidateFault(a.run));
    if w.logins[a.run].phase.Invalidating? {
      assert Charged(w', InvalidateFault(a.run), w.logins[a.run].phase.prior);
      assert BlameOk(w', InvalidateFault(a.run));
    }
    assert Moves(w, w', a.run);
    MoveKeepsInv(w, w', a.run);
  }

  lemma GrantKeepsInv(w: World, a: Action)
    requires Inv(w) && Enabled(w, a) && a.Ask? && a.issue.Granted?
    ensures Inv(Apply(w, a))
  {
    var w', l := Apply(w, a), w.logins[a.run];
    assert LoginOk(w, a.run);
    assert Holds(w', a.run, a.issue.token);
    assert Moves(w, w', a.run);
    if l.phase.seen.Found? {
      SettledStays(w, w', a.run, l.key, l.phase.seen.token);
    }
    MoveKeepsInv(w, w', a.run);
  }

  lemma DeniedKeepsInv(w: World, a: Action)
    requires Inv(w) && Enabled(w, a) && a.Ask? && a.issue.Denied?
    ensures Inv(Apply(w, a))
  {
    MoveKeepsInv(w, Apply(w, a), a.run);
  }

  lemma UnheardKeepsInv(w: World, a: Action)
    requires Inv(w) && Enabled(w, a) && a.Ask? && a.issue.Unheard?
    ensures Inv(Apply(w, a))
  {
    var w', t := Apply(w, a), a.issue.token;
    assert LoginOk(w, a.run);
    FaultIsNew(w, ReplyFault(a.run));
    assert Charged(w', ReplyFault(a.run), t);
    assert Moves(w, w', a.run);
    assert Accounted(w', t) && BlameOk(w', ReplyFault(a.run));
    MoveKeepsInv(w, w', a.run);
  }

  lemma StoreFailsKeepsInv(w: World, a: Action)
    requires Inv(w) && Enabled(w, a) && a.Store? && !a.ok
    ensures Inv(Apply(w, a))
  {
    assert LoginOk(w, a.run);
    FaultIsNew(w, StoreFault(a.run));
    assert Charged(Apply(w, a), StoreFault(a.run), w.logins[a.run].phase.made);
    MoveKeepsInv(w, Apply(w, a), a.run);
  }

  lemma DisplaceKeepsInv(w: World, a: Action)
    requires Inv(w) && Enabled(w, a) && a.Store? && a.ok
    requires Displaces(w, w.logins[a.run].key, w.logins[a.run].phase.seen)
    ensures Inv(Apply(w, a))
  {
    var l := w.logins[a.run];
    var f := Displacement(a.run, l.phase.seen);
    assert LoginOk(w, a.run);
    FaultIsNew(w, f);
    assert Charged(Apply(w, a), f, w.cache[l.key]);
    MoveKeepsInv(w, Apply(w, a), a.run);
  }

  lemma ReplaceKeepsInv(w: World, a: Action)
    requires Inv(w) && Enabled(w, a) && a.Store? && a.ok
    requires !Displaces(w, w.logins[a.run].key, w.logins[a.run].phase.seen)
    ensures Inv(Apply(w, a))
  {
    var w', l := Apply(w, a), w.logins[a.run];
    assert LoginOk(w, a.run);
    if l.phase.seen.Found? && l.phase.seen.token in w.live {
      var g :| Charged(w, g, l.phase.seen.token);
      assert Charged(w', g, l.phase.seen.token);
    }
    MoveKeepsInv(w, w', a.run);
  }

  lemma StepKeepsInv(w: World, a: Action)
    requires Inv(w) && Enabled(w, a)
    ensures Inv(Apply(w, a))
  {
    match a
    case Begin(_, _, _, _) => BeginKeepsInv(w, a);
    case Read(_, _) => ReadKeepsInv(w, a);
    case ReadFails(_) => ReadKeepsInv(w, a);
    case Invalidate(_, r) => if r.Accepted? { AcceptedKeepsInv(w, a); } else { RejectedKeepsInv(w, a); }
    case Ask(_, i) =>
      if i.Granted? { GrantKeepsInv(w, a); } else if i.Denied? { DeniedKeepsInv(w, a); } else { UnheardKeepsInv(w, a); }
    case Store(run, ok) =>
      if !ok { StoreFailsKeepsInv(w, a); }
      else if Displaces(w, w.logins[run].key, w.logins[run].phase.seen) { DisplaceKeepsInv(w, a); }
      else { ReplaceKeepsInv(w, a); }
  }

  // ---------- all runs ----------

  /** The world after a list of steps from the start, if every one of them was enabled in turn. */
  function Exec(acts: seq<Action>): (r: Option<World>)
  {
    if acts == [] then Some(INIT)
    else
      var n := |acts| - 1;
      match Exec(acts[..n]) {
        case None => None
        case Some(w) => if Enabled(w, acts[n]) then Some(Apply(w, acts[n])) else None
      }
  }

  lemma {:induction false} ReachableInv(acts: seq<Action>)
    requires Exec(acts).Some?
    ensures Inv(Exec(acts).value)
  {
    if acts != [] {
      var n := |acts| - 1;
      ReachableInv(acts[..n]);
      StepKeepsInv(Exec(acts[..n]).value, acts[n]);
    }
  }

  /** The live tokens of an identity. */
  ghost function LiveFor(w: World, key: Key): set<Token>
  {
    set t | t in w.live && MadeFor(w, t, key)
  }

  /** The logins of an identity that have a token not yet cached. */
  ghost function InFlight(w: World, key: Key): set<nat>
  {
    set run | run in w.logins && w.logins[run].key == key && w.logins[run].phase.Storing?
  }

  /** What went wrong in logins of an identity. */
  ghost function FaultsFor(w: World, key: Key): set<Fault>
  {
    set f | f in w.faults && f.run in w.logins && w.logins[f.run].key == key
  }

  lemma {:induction false} ValuesBound<A, B>(m: map<A, B>)
    ensures |m.Values| <= |m|
    decreases |m|
  {
    if m.Keys == {} {
      assert m.Values == {};
    } else {
      var a :| a in m.Keys;
      var rest := map x | x in m && x != a :: m[x];
      assert rest.Keys == m.Keys - {a};
      ValuesBound(rest);
      forall v | v in m.Values ensures v in rest.Values + {m[a]} {
        var x :| x in m && m[x] == v;
        assert x != a ==> x in rest && rest[x] == v;
      }
      SubsetBound(m.Values, rest.Values + {m[a]});
    }
  }

  lemma {:induction false} SubsetBound<A>(s: set<A>, t: set<A>)
    requires s <= t
    ensures |s| <= |t|
    decreases t
  {
    if s != {} {
      var x :| x in s;
      SubsetBound(s - {x}, t - {x});
    }
  }

  /** A live token of an identity is cached for it, in hand in one of its logins, or charged to one of them. */
  lemma WhereLive(w: World, key: Key, t: Token)
    requires Inv(w) && t in LiveFor(w, key)
    ensures
      || (key in w.cache && w.cache[key] == t)
      || (exists run :: run in InFlight(w, key) && Holds(w, run, t))
      || (exists f :: f in FaultsFor(w, key) && Charged(w, f, t))
  {
    assert Accounted(w, t);
    if Blamed(w, t) {
      var f :| Charged(w, f, t);
      assert BlameOk(w, f);
    } else if Held(w, t) {
      var run :| Holds(w, run, t);
      assert LoginOk(w, run);
    }
  }

  /** The tokens in hand in logins of an identity, and those charged to their faults. */
  ghost function Hands(w: World, key: Key): map<nat, Token>
  {
    map run | run in InFlight(w, key) :: w.logins[run].phase.made
  }

  ghost function Leaks(w: World, key: Key): map<Fault, Token>
  {
    map f | f in FaultsFor(w, key) && f in w.blame :: w.blame[f]
  }

  lemma LiveCovered(w: World, key: Key)
    requires Inv(w)
    ensures LiveFor(w, key) <=
      (if key in w.cache then {w.cache[key]} else {}) + (Hands(w, key).Values + Leaks(w, key).Values)
  {
    forall t | t in LiveFor(w, key)
      ensures (key in w.cache && w.cache[key] == t) || t in Hands(w, key).Values || t in Leaks(w, key).Values
    {
      WhereLive(w, key, t);
      if f :| f in FaultsFor(w, key) && Charged(w, f, t) { assert Leaks(w, key)[f] == t; }
      if run :| run in InFlight(w, key) && Holds(w, run, t) { assert Hands(w, key)[run] == t; }
    }
  }

  lemma LiveBound(w: World, key: Key)
    requires Inv(w)
    ensures |LiveFor(w, key)| <= 1 + |InFlight(w, key)| + |FaultsFor(w, key)|
  {
    var cached := if key in w.cache then {w.cache[key]} else {};
    var hands, leaks := Hands(w, key).Values, Leaks(w, key).Values;
    LiveCovered(w, key);
    SubsetBound(LiveFor(w, key), cached + (hands + leaks));
    ValuesBound(Hands(w, key));
    ValuesBound(Leaks(w, key));
    assert Hands(w, key).Keys == InFlight(w, key);
    SubsetBound(Leaks(w, key).Keys, FaultsFor(w, key));
    assert |cached + (hands + leaks)| <= |cached| + (|hands| + |leaks|);
  }

  /** However logins interleave and fail: live tokens of an identity <= 1 + in flight + faults. */
  lemma OneTokenBound(acts: seq<Action>, key: Key)
    requires Exec(acts).Some?
    ensures var w := Exec(acts).value; |LiveFor(w, key)| <= 1 + |InFlight(w, key)| + |FaultsFor(w, key)|
  {
    ReachableInv(acts);
    LiveBound(Exec(acts).value, key);
  }

  /** With nothing in flight and nothing gone wrong, the cached token is the only live one. */
  lemma QuietIdentity(acts: seq<Action>, key: Key)
    requires Exec(acts).Some?
    requires InFlight(Exec(acts).value, key) == {} && FaultsFor(Exec(acts).value, key) == {}
    ensures var w := Exec(acts).value; forall t :: t in LiveFor(w, key) ==> key in w.cache && w.cache[key] == t
  {
    var w := Exec(acts).value;
    ReachableInv(acts);
    forall t | t in LiveFor(w, key) ensures key in w.cache && w.cache[key] == t {
      WhereLive(w, key, t);
    }
  }

  /** Did this step fail, or replace a cached token its login had not read? */
  ghost predicate Leaky(w: World, a: Action)
    requires Enabled(w, a)
  {
    match a
    case Begin(_, _, _, _) => false
    case Read(_, _) => false
    case ReadFails(_) => false
    case Invalidate(run, reply) => !reply.Accepted? && w.logins[run].phase.Invalidating?
    case Ask(_, issue) => issue.Unheard?
    case Store(run, ok) => !ok || Displaces(w, w.logins[run].key, w.logins[run].phase.seen)
  }

  /** The fault a leaky step is charged to. */
  ghost function NewFault(w: World, a: Action): Fault
    requires Enabled(w, a) && Leaky(w, a)
  {
    match a
    case Invalidate(run, _) => InvalidateFault(run)
    case Ask(run, _) => ReplyFault(run)
    case Store(run, ok) => if ok then Displacement(run, w.logins[run].phase.seen) else StoreFault(run)
  }

  lemma LeakyCharges(w: World, a: Action)
    requires Enabled(w, a) && Leaky(w, a)
    ensures Apply(w, a).blame.Keys == w.blame.Keys + {NewFault(w, a)}
  {
  }

  lemma TightKeeps(w: World, a: Action)
    requires Enabled(w, a) && !Leaky(w, a)
    ensures Apply(w, a).blame == w.blame
  {
  }

  lemma OneMore(b: map<Fault, Token>, b': map<Fault, Token>, f: Fault)
    requires f !in b && b'.Keys == b.Keys + {f}
    ensures b' != b && |b'.Keys| == |b.Keys| + 1
  {
    assert f in b'.Keys;
  }

  lemma LeakyGrows(w: World, a: Action)
    requires Inv(w) && Enabled(w, a) && Leaky(w, a)
    ensures Apply(w, a).blame != w.blame && |Apply(w, a).blame.Keys| == |w.blame.Keys| + 1
  {
    LeakyCharges(w, a);
    FaultIsNew(w, NewFault(w, a));
    OneMore(w.blame, Apply(w, a).blame, NewFault(w, a));
  }

  /** Charged tokens grow, one token at a time, exactly on the steps that fail or displace. */
  lemma LeaksGrowExactlyOn(w: World, a: Action)
    requires Inv(w) && Enabled(w, a)
    ensures Leaky(w, a) <==> Apply(w, a).blame != w.blame
    ensures |Apply(w, a).blame.Keys| == |w.blame.Keys| + if Leaky(w, a) then 1 else 0
  {
    if Leaky(w, a) { LeakyGrows(w, a); } else { TightKeeps(w, a); }
  }

  // ---------- refusal ----------

  ghost predicate IsDone(w: World, run: nat)
  {
    run in w.logins && w.logins[run].phase.Done?
  }

  lemma DoneStep(w: World, a: Action, run: nat)
    requires Enabled(w, a) && IsDone(w, run)
    ensures IsDone(Apply(w, a), run)
  {
  }

  lemma {:induction false} DoneStays(acts: seq<Action>, i: nat, run: nat)
    requires Exec(acts).Some? && i <= |acts| && Exec(acts[..i]).Some?
    requires IsDone(Exec(acts[..i]).value, run)
    ensures IsDone(Exec(acts).value, run)
    decreases |acts|
  {
    if i == |acts| {
      assert acts[..i] == acts;
    } else {
      var n := |acts| - 1;
      assert acts[..n][..i] == acts[..i];
      DoneStays(acts[..n], i, run);
      DoneStep(Exec(acts[..n]).value, acts[n], run);
    }
  }

  lemma {:induction false} PrefixRuns(acts: seq<Action>, i: nat)
    requires Exec(acts).Some? && i <= |acts|
    ensures Exec(acts[..i]).Some?
    ensures i < |acts| ==> Enabled(Exec(acts[..i]).value, acts[i])
    ensures i < |acts| ==> Exec(acts[..i + 1]) == Some(Apply(Exec(acts[..i]).value, acts[i]))
    decreases |acts|
  {
    var n := |acts| - 1;
    if i == |acts| {
      assert acts[..i] == acts;
    } else if i < n {
      assert acts[..n][..i] == acts[..i] && acts[..n][..i + 1] == acts[..i + 1];
      PrefixRuns(acts[..n], i);
    } else {
      assert acts[..i + 1] == acts;
    }
  }

  /** A token login told it is unauthorised never asks for a token, however the run goes on. */
  lemma RefusedNeverAsks(acts: seq<Action>, i: nat, j: nat, run: nat)
    requires Exec(acts).Some? && i < j < |acts|
    requires acts[i] == Invalidate(run, Unauthorised)
    requires var r := Exec(acts[..i]); r.Some? && run in r.value.logins && r.value.logins[run].flow.TokenAuth?
    ensures !(acts[j].Ask? && acts[j].run == run)
  {
    PrefixRuns(acts, i);
    PrefixRuns(acts, j);
    assert acts[..j][..i + 1] == acts[..i + 1];
    DoneStays(acts[..j], i + 1, run);
  }

  // ---------- identities do not disturb one another ----------

  /** The identity a step works for. */
  function KeyOf(w: World, a: Action): Key
    requires Enabled(w, a)
  {
    if a.Begin? then a.key else w.logins[a.run].key
  }

  function CachedFor(w: World, key: Key): Option<Token>
  {
    if key in w.cache then Some(w.cache[key]) else None
  }

  ghost predicate SameFor(w: World, w': World, key: Key)
  {
    CachedFor(w', key) == CachedFor(w, key) && LiveFor(w', key) == LiveFor(w, key)
  }

  /** The gateway is about to drop a live token of `key`. */
  ghost predicate Strikes(w: World, a: Action, key: Key)
    requires Enabled(w, a)
  {
    a.Invalidate? && a.reply.Accepted? && w.logins[a.run].phase.prior in LiveFor(w, key)
  }

  /** A token is live after a step if it was and is not invalidated, or if it has just been made. */
  lemma LiveFrom(w: World, a: Action, t: Token)
    requires Enabled(w, a)
    ensures t in Apply(w, a).live <==>
      (t in w.live && !(a.Invalidate? && a.reply.Accepted? && w.logins[a.run].phase.prior == t))
      || (a.Ask? && !a.issue.Denied? && a.issue.token == t)
  {
  }

  /** A step for one identity leaves another alone, unless a token misread for the one is live for the other. */
  lemma StepSparesOthers(w: World, a: Action, key: Key)
    requires Inv(w) && Enabled(w, a) && KeyOf(w, a) != key
    ensures SameFor(w, Apply(w, a), key) <==> !Strikes(w, a, key)
    ensures Strikes(w, a, key) ==> w.logins[a.run].phase.Misreading?
  {
    if !a.Begin? { assert LoginOk(w, a.run); }
    var w' := Apply(w, a);
    forall t ensures MadeFor(w', t, key) <==> MadeFor(w, t, key) {
      OthersHome(w, a, key, t);
    }
    forall t | MadeFor(w, t, key)
      ensures t in w'.live <==> t in w.live && !(Strikes(w, a, key) && w.logins[a.run].phase.prior == t)
    {
      LiveFrom(w, a, t);
    }
    OthersCache(w, a, key);
    assert Strikes(w, a, key) ==> w.logins[a.run].phase.prior !in LiveFor(w', key);
    assert !Strikes(w, a, key) ==> forall t :: t in LiveFor(w', key) <==> t in LiveFor(w, key);
  }

  lemma OthersHome(w: World, a: Action, key: Key, t: Token)
    requires Enabled(w, a) && KeyOf(w, a) != key
    ensures MadeFor(Apply(w, a), t, key) <==> MadeFor(w, t, key)
  {
  }

  lemma OthersCache(w: World, a: Action, key: Key)
    requires Enabled(w, a) && KeyOf(w, a) != key
    ensures CachedFor(Apply(w, a), key) == CachedFor(w, key)
  {
  }

  /** Steps for other identities change neither the cached nor the live tokens of this one. */
  lemma {:induction false} OthersSpareIdentity(acts: seq<Action>, i: nat, key: Key)
    requires Exec(acts).Some? && i <= |acts|
    requires forall j :: i <= j < |acts| ==> match Exec(acts[..j]) {
      case Some(w) => Enabled(w, acts[j]) ==> KeyOf(w, acts[j]) != key && !Strikes(w, acts[j], key)
      case None => true }
    ensures Exec(acts[..i]).Some? && SameFor(Exec(acts[..i]).value, Exec(acts).value, key)
    decreases |acts|
  {
    if i == |acts| {
      assert acts[..i] == acts;
    } else {
      var n := |acts| - 1;
      assert forall j :: i <= j <= n ==> acts[..n][..j] == acts[..j];
      OthersSpareIdentity(acts[..n], i, key);
      ReachableInv(acts[..n]);
      StepSparesOthers(Exec(acts[..n]).value, acts[n], key);
    }
  }

  // ---------- one login at a time ----------

  /** Every login keeps to one token and starts only when all earlier ones are done. */
  ghost predicate Sequential(acts: seq<Action>)
  {
    forall i :: 0 <= i < |acts| && acts[i].Begin? ==>
      acts[i].oneToken && Exec(acts[..i]).Some? && Idle(Exec(acts[..i]).value)
  }

  ghost predicate Idle(w: World)
  {
    forall run :: run in w.logins ==> w.logins[run].phase.Done?
  }

  /** What the login under way has seen is what is still cached. */
  ghost predicate UpToDate(w: World, key: Key, seen: Seen)
  {
    match seen
    case Skipped => false
    case Missing => key !in w.cache
    case Unreadable => true
    case Found(t) => key in w.cache && w.cache[key] == t
  }

  ghost predicate CurrentOk(w: World, l: Login)
  {
    match l.phase
    case Reading => true
    case Invalidating(t) => l.key in w.cache && w.cache[l.key] == t
    case Misreading(_) => true
    case Requesting(seen) => UpToDate(w, l.key, seen)
    case Storing(seen, _) => UpToDate(w, l.key, seen)
    case Done => true
  }

  ghost predicate SequentialInv(w: World)
  {
    && (forall r, q :: r in w.logins && q in w.logins && r != q ==> w.logins[r].phase.Done? || w.logins[q].phase.Done?)
    && (forall r :: r in w.logins ==> CurrentOk(w, w.logins[r]))
    && (forall f :: f in w.faults ==> !f.LostUpdate?)
  }

  lemma OthersDone(w: World, a: Action)
    requires SequentialInv(w) && Enabled(w, a)
    requires a.Begin? ==> Idle(w)
    ensures forall r :: r in Apply(w, a).logins && r != a.run ==> Apply(w, a).logins[r].phase.Done?
  {
  }

  lemma SequentialStep(w: World, a: Action)
    requires SequentialInv(w) && Enabled(w, a)
    requires a.Begin? ==> a.oneToken && Idle(w)
    ensures SequentialInv(Apply(w, a))
  {
    if !a.Begin? {
      assert CurrentOk(w, w.logins[a.run]);
    }
    OthersDone(w, a);
    CurrentStep(w, a);
    NothingLost(w, a);
  }

  /** The login under way stays up to date. */
  lemma CurrentStep(w: World, a: Action)
    requires Enabled(w, a)
    requires a.Begin? ==> a.oneToken
    requires !a.Begin? ==> CurrentOk(w, w.logins[a.run])
    ensures CurrentOk(Apply(w, a), Apply(w, a).logins[a.run])
  {
    if a.Read? || a.ReadFails? || a.Invalidate? { CurrentPreparation(w, a); }
  }

  lemma CurrentPreparation(w: World, a: Action)
    requires Enabled(w, a) && (a.Read? || a.ReadFails? || a.Invalidate?)
    requires CurrentOk(w, w.logins[a.run])
    ensures CurrentOk(Apply(w, a), Apply(w, a).logins[a.run])
  {
  }

  /** It charges no lost update. */
  lemma NothingLost(w: World, a: Action)
    requires Enabled(w, a)
    requires !a.Begin? ==> CurrentOk(w, w.logins[a.run])
    ensures forall f :: f in Apply(w, a).faults ==> f in w.faults || !f.LostUpdate?
  {
  }

  lemma {:induction false} SequentialRunsLoseNothing(acts: seq<Action>)
    requires Exec(acts).Some? && Sequential(acts)
    ensures SequentialInv(Exec(acts).value)
  {
    if acts != [] {
      var n := |acts| - 1;
      assert forall i :: 0 <= i < n ==> acts[..n][..i] == acts[..i];
      SequentialRunsLoseNothing(acts[..n]);
      SequentialStep(Exec(acts[..n]).value, acts[n]);
    }
  }

  /**
   * Logins one after the other: once the last is done, the live tokens of an identity number at most one
   * plus its failed reads, failed invalidations, unheard replies and failed stores.
   */
  lemma SequentialBound(acts: seq<Action>, key: Key)
    requires Exec(acts).Some? && Sequential(acts) && Idle(Exec(acts).value)
    ensures var w := Exec(acts).value;
      && |LiveFor(w, key)| <= 1 + |FaultsFor(w, key)|
      && forall f :: f in FaultsFor(w, key) ==> f.ReadFault? || f.InvalidateFault? || f.ReplyFault? || f.StoreFault?
  {
    OneTokenBound(acts, key);
    SequentialRunsLoseNothing(acts);
    assert InFlight(Exec(acts).value, key) == {};
  }

  // ---------- what interleaving costs ----------

  function SeenAs(c: Option<Token>): Seen
  {
    match c case None => Missing case Some(t) => Found(t)
  }

  /** Login `run` is past its lookup, which found `c`. */
  ghost predicate Remembers(w: World, run: nat, key: Key, c: Option<Token>)
  {
    && run in w.logins && w.logins[run].key == key
    && match w.logins[run].phase
      case Reading => false
      case Invalidating(t) => c == Some(t)
      case Misreading(_) => false
      case Requesting(s) => s == SeenAs(c)
      case Storing(s, _) => s == SeenAs(c)
      case Done => true
  }

  /** A successful store for an identity. */
  ghost predicate StoresFor(w: World, a: Action, key: Key)
  {
    a.Store? && a.ok && a.run in w.logins && w.logins[a.run].key == key
  }

  /** Some step after `i` stored for the identity. */
  ghost predicate Disturbed(acts: seq<Action>, i: nat, key: Key)
  {
    exists m :: i < m < |acts| && StoredAt(acts, m, key)
  }

  ghost predicate StoredAt(acts: seq<Action>, m: nat, key: Key)
    requires m < |acts|
  {
    Exec(acts[..m]).Some? && StoresFor(Exec(acts[..m]).value, acts[m], key)
  }

  /** Login `run` looked at step `i` and was given what was cached. */
  ghost predicate LookedAt(acts: seq<Action>, i: nat, run: nat, key: Key)
  {
    && i < |acts| && Exec(acts[..i]).Some?
    && var w := Exec(acts[..i]).value;
      run in w.logins && w.logins[run].key == key && acts[i] == Read(run, CachedFor(w, key))
  }

  /** What a login holds is cached nowhere and held by no other. */
  ghost predicate Apart(w: World)
  {
    && (forall r, k :: k in w.cache ==> !Holds(w, r, w.cache[k]))
    && (forall r, q, t :: Holds(w, r, t) && Holds(w, q, t) ==> r == q)
  }

  lemma ApartStep(w: World, a: Action)
    requires Inv(w) && Apart(w) && Enabled(w, a)
    ensures Apart(Apply(w, a))
  {
    var w' := Apply(w, a);
    if a.Store? {
      assert Holds(w, a.run, w.logins[a.run].phase.made);
    }
    forall r, t | Holds(w', r, t) ensures Holds(w, r, t) || (r == a.run && t !in w.home) {
      HoldsFrom(w, a, r, t);
    }
    forall r, t | Holds(w, r, t) ensures t in w.home {
      assert LoginOk(w, r);
    }
    CacheFrom(w, a);
  }

  /** What a login holds after a step it held before, or has just been given. */
  lemma HoldsFrom(w: World, a: Action, r: nat, t: Token)
    requires Enabled(w, a) && Holds(Apply(w, a), r, t)
    ensures Holds(w, r, t) || (r == a.run && t !in w.home)
    ensures a.Store? ==> r != a.run
  {
  }

  /** What is cached after a step was cached before, or was held by the login that stored it. */
  lemma CacheFrom(w: World, a: Action)
    requires Enabled(w, a)
    ensures forall k :: k in Apply(w, a).cache ==>
      (k in w.cache && Apply(w, a).cache[k] == w.cache[k]) || (a.Store? && Holds(w, a.run, Apply(w, a).cache[k]))
  {
  }

  lemma {:induction false} ReachableApart(acts: seq<Action>)
    requires Exec(acts).Some?
    ensures Apart(Exec(acts).value)
  {
    if acts != [] {
      var n := |acts| - 1;
      ReachableApart(acts[..n]);
      ReachableInv(acts[..n]);
      ApartStep(Exec(acts[..n]).value, acts[n]);
    }
  }

  /** `c` was made, and no login holds it: it will not be cached again. */
  ghost predicate Spent(w: World, c: Option<Token>)
  {
    c.Some? ==> c.value in w.home && !Held(w, c.value)
  }

  lemma SpentStep(w: World, a: Action, c: Option<Token>)
    requires Enabled(w, a) && Spent(w, c)
    ensures Spent(Apply(w, a), c)
  {
    if c.Some? {
      forall run ensures !Holds(Apply(w, a), run, c.value) {
        assert !Holds(w, run, c.value);
      }
    }
  }

  /** The identity has something else cached than `c`. */
  ghost predicate Superseded(w: World, key: Key, c: Option<Token>)
  {
    key in w.cache && c != Some(w.cache[key])
  }

  lemma SupersededStep(w: World, a: Action, key: Key, c: Option<Token>)
    requires Enabled(w, a) && Spent(w, c)
    ensures StoresFor(w, a, key) ==> Superseded(Apply(w, a), key, c)
    ensures !StoresFor(w, a, key) ==> CachedFor(Apply(w, a), key) == CachedFor(w, key)
  {
    if StoresFor(w, a, key) {
      assert Holds(w, a.run, w.logins[a.run].phase.made);
    }
  }

  lemma RemembersStep(w: World, a: Action, run: nat, key: Key, c: Option<Token>)
    requires Enabled(w, a) && Remembers(w, run, key, c)
    ensures Remembers(Apply(w, a), run, key, c)
  {
    if a.run != run { OthersUnmoved(w, a, run); }
  }

  lemma OthersUnmoved(w: World, a: Action, run: nat)
    requires Enabled(w, a) && run in w.logins && run != a.run
    ensures run in Apply(w, a).logins && Apply(w, a).logins[run] == w.logins[run]
  {
  }

  lemma LookUpRemembers(w: World, run: nat, key: Key)
    requires Inv(w) && Apart(w) && run in w.logins && w.logins[run].key == key
    requires Enabled(w, Read(run, CachedFor(w, key)))
    ensures var c, w' := CachedFor(w, key), Apply(w, Read(run, CachedFor(w, key)));
      Remembers(w', run, key, c) && Spent(w', c) && CachedFor(w', key) == c
  {
    var c, w' := CachedFor(w, key), Apply(w, Read(run, CachedFor(w, key)));
    if c.Some? {
      forall r ensures !Holds(w', r, c.value) {
        assert !Holds(w, r, c.value);
      }
    }
  }

  lemma DisturbedSnoc(acts: seq<Action>, i: nat, key: Key)
    requires acts != [] && i < |acts| - 1
    ensures var n := |acts| - 1; Disturbed(acts, i, key) <==> Disturbed(acts[..n], i, key) || StoredAt(acts, n, key)
  {
    var n := |acts| - 1;
    assert forall m :: 0 <= m < n ==> acts[..n][..m] == acts[..m] && acts[..n][m] == acts[m];
    forall m | i < m < n ensures StoredAt(acts[..n], m, key) <==> StoredAt(acts, m, key) {
      assert acts[..n][..m] == acts[..m];
    }
  }

  /** After a lookup: the login remembers what it found, and that is still cached unless someone stored since. */
  lemma {:induction false} SinceLookup(acts: seq<Action>, i: nat, run: nat, key: Key)
    requires Exec(acts).Some? && LookedAt(acts, i, run, key)
    ensures var c, w := CachedFor(Exec(acts[..i]).value, key), Exec(acts).value;
      && Remembers(w, run, key, c) && Spent(w, c)
      && if Disturbed(acts, i, key) then Superseded(w, key, c) else CachedFor(w, key) == c
    decreases |acts|
  {
    var n := |acts| - 1;
    var w, c := Exec(acts[..n]).value, CachedFor(Exec(acts[..i]).value, key);
    if i < n {
      assert acts[..n][..i] == acts[..i];
      SinceLookup(acts[..n], i, run, key);
      RemembersStep(w, acts[n], run, key, c);
      SpentStep(w, acts[n], c);
      SupersededStep(w, acts[n], key, c);
      DisturbedSnoc(acts, i, key);
    } else {
      ReachableInv(acts[..n]);
      ReachableApart(acts[..n]);
      LookUpRemembers(w, run, key);
    }
  }

  /** A store displaces a token exactly when another login of the identity stored since this one looked. */
  lemma StoreLosesExactlyWhen(acts: seq<Action>, i: nat, run: nat, key: Key)
    requires Exec(acts).Some? && LookedAt(acts, i, run, key)
    requires Enabled(Exec(acts).value, Store(run, true))
    ensures Leaky(Exec(acts).value, Store(run, true)) <==> Disturbed(acts, i, key)
  {
    SinceLookup(acts, i, run, key);
  }

  /** In particular, a login whose identity is left alone from its lookup to its store loses nothing. */
  lemma UndisturbedStoreLosesNothing(acts: seq<Action>, i: nat, run: nat, key: Key)
    requires Exec(acts).Some? && LookedAt(acts, i, run, key) && !Disturbed(acts, i, key)
    requires Enabled(Exec(acts).value, Store(run, true))
    ensures !Leaky(Exec(acts).value, Store(run, true))
  {
    StoreLosesExactlyWhen(acts, i, run, key);
  }

  lemma ExecSnoc(acts: seq<Action>, a: Action)
    requires Exec(acts).Some? && Enabled(Exec(acts).value, a)
    ensures Exec(acts + [a]) == Some(Apply(Exec(acts).value, a))
  {
    assert (acts + [a])[..|acts|] == acts;
  }

  lemma ExecTwo(acts: seq<Action>, a: Action, b: Action)
    requires Exec(acts).Some? && Enabled(Exec(acts).value, a) && Enabled(Apply(Exec(acts).value, a), b)
    ensures Exec(acts + [a, b]) == Some(Apply(Apply(Exec(acts).value, a), b))
  {
    ExecSnoc(acts, a);
    ExecSnoc(acts + [a], b);
    assert acts + [a] + [b] == acts + [a, b];
  }

  function At(phase: Phase): Login
  {
    Login("k", TokenAuth, phase)
  }

  /** Two logins that overlap, up to the point where each holds a new token. */
  lemma OverlapHalfway() returns (acts: seq<Action>)
    ensures acts == [
      Begin(0, "k", TokenAuth, true), Begin(1, "k", TokenAuth, true), Read(0, None), Read(1, None),
      Ask(0, Granted("a")), Ask(1, Granted("b"))]
    ensures Exec(acts) == Some(World(map[], {"a", "b"}, map["a" := "k", "b" := "k"],
      map[0 := At(Storing(Missing, "a")), 1 := At(Storing(Missing, "b"))], {}, map[]))
  {
    var begun := [Begin(0, "k", TokenAuth, true), Begin(1, "k", TokenAuth, true)];
    var read := begun + [Read(0, None), Read(1, None)];
    acts := read + [Ask(0, Granted("a")), Ask(1, Granted("b"))];
    var w := World(map[], {}, map[], map[0 := At(Reading), 1 := At(Reading)], {}, map[]);
    assert Exec(begun) == Some(w) by {
      ExecTwo([], begun[0], begun[1]);
      assert [] + begun == begun;
    }
    var w' := w.(logins := map[0 := At(Requesting(Missing)), 1 := At(Requesting(Missing))]);
    assert Exec(read) == Some(w') by {
      ExecTwo(begun, Read(0, None), Read(1, None));
      assert Exec(read).value.logins == w'.logins;
    }
    OverlapAsks(read);
  }

  lemma OverlapAsks(read: seq<Action>)
    requires Exec(read) == Some(World(map[], {}, map[],
      map[0 := At(Requesting(Missing)), 1 := At(Requesting(Missing))], {}, map[]))
    ensures Exec(read + [Ask(0, Granted("a")), Ask(1, Granted("b"))]) == Some(World(map[], {"a", "b"},
      map["a" := "k", "b" := "k"], map[0 := At(Storing(Missing, "a")), 1 := At(Storing(Missing, "b"))], {}, map[]))
  {
    ExecTwo(read, Ask(0, Granted("a")), Ask(1, Granted("b")));
    var w := Apply(Apply(Exec(read).value, Ask(0, Granted("a"))), Ask(1, Granted("b")));
    assert w.live == {"a", "b"};
    assert w.home == map["a" := "k", "b" := "k"];
    assert w.logins == map[0 := At(Storing(Missing, "a")), 1 := At(Storing(Missing, "b"))];
  }

  lemma OverlapStores(halfway: seq<Action>)
    requires Exec(halfway) == Some(World(map[], {"a", "b"}, map["a" := "k", "b" := "k"],
      map[0 := At(Storing(Missing, "a")), 1 := At(Storing(Missing, "b"))], {}, map[]))
    ensures var r := Exec(halfway + [Store(0, true), Store(1, true)]);
      && r.Some? && Idle(r.value) && r.value.live == {"a", "b"} && r.value.home == map["a" := "k", "b" := "k"]
      && r.value.cache == map["k" := "b"] && r.value.faults == {LostUpdate(1)}
  {
    ExecTwo(halfway, Store(0, true), Store(1, true));
  }

  /** No call fails, yet both tokens stay live: the second store forgets the first token. */
  lemma OverlapLeavesTwo() returns (acts: seq<Action>)
    ensures Exec(acts).Some? && forall a :: a in acts ==>
      !a.ReadFails? && (a.Invalidate? ==> a.reply.Accepted?) && (a.Ask? ==> a.issue.Granted?) && (a.Store? ==> a.ok)
    ensures var w := Exec(acts).value;
      Idle(w) && LiveFor(w, "k") == {"a", "b"} && w.cache == map["k" := "b"] && w.faults == {LostUpdate(1)}
  {
    var halfway := OverlapHalfway();
    OverlapStores(halfway);
    acts := halfway + [Store(0, true), Store(1, true)];
    assert LiveFor(Exec(acts).value, "k") == {"a", "b"};
  }
}
