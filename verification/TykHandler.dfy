/**
 * The token and OAuth logins of the Tyk identity handler, one call at a time, over a store that keeps
 * texts. Every call is shown to be a list of steps of TokenProtocol, so what holds of all its runs holds
 * of the handler; and for calls that do not fail, the surviving tokens are computed exactly.
 */
module TykHandler {
  import opened Wrappers
  import opened TokenProtocol
  import CacheKeys

  /** How the identity cache writes a token string as text, and reads a text back as a string. */
  datatype Codec = Codec(enc: Token -> string, dec: string -> Option<Token>)

  /** What came of a token request: the token, a reply without it, an error after it was made, or nothing. */
  datatype ApiReply = Issued(token: Token) | Blank(token: Token) | LateError(token: Token) | Rejected

  function IssueOf(r: ApiReply): Issue
  {
    match r
    case Issued(t) => Granted(t)
    case Blank(t) => Unheard(t)
    case LateError(t) => Unheard(t)
    case Rejected => Denied
  }

  /** The answers the store and the APIs give during one login. */
  datatype Env = Env(readOk: bool, invalidation: Reply, api: ApiReply, storeOk: bool)

  /** What the user is told: a token (empty if the reply brought none), or why there is none. */
  datatype Outcome = LoggedIn(token: Token) | GenerationFailed | BadCredentials

  /** What the cache lookup of a login comes to. */
  datatype Lookup = NotLooked | LookupError | NoToken | Stored(token: Token)

  function LookUp(c: Codec, oneToken: bool, store: map<Key, string>, key: Key, readOk: bool): Lookup
  {
    if !oneToken then NotLooked
    else if !readOk then LookupError
    else if key !in store then NoToken
    else if c.dec(store[key]).None? then LookupError
    else Stored(c.dec(store[key]).value)
  }

  /** The protocol steps of a lookup and of the invalidation it leads to. */
  function LookupSteps(run: nat, l: Lookup, invalidation: Reply): seq<Action>
  {
    match l
    case NotLooked => []
    case LookupError => [ReadFails(run)]
    case NoToken => [Read(run, None)]
    case Stored(t) => [Read(run, Some(t)), Invalidate(run, invalidation)]
  }

  /** A token login stops when its invalidation is unauthorised; an OAuth login goes on. */
  predicate Stops(flow: Flow, l: Lookup, invalidation: Reply)
  {
    flow.TokenAuth? && l.Stored? && invalidation.Unauthorised?
  }

  /** The protocol steps of getting and caching a new token. */
  function TokenSteps(run: nat, env: Env): seq<Action>
  {
    [Ask(run, IssueOf(env.api))] + if env.api.Issued? then [Store(run, env.storeOk)] else []
  }

  /** The protocol steps of a whole login. */
  function Steps(run: nat, key: Key, flow: Flow, oneToken: bool, l: Lookup, env: Env): seq<Action>
  {
    [Begin(run, key, flow, oneToken)] + LookupSteps(run, l, env.invalidation)
    + if Stops(flow, l, env.invalidation) then [] else TokenSteps(run, env)
  }

  lemma StepsJoin(acts: seq<Action>, run: nat, key: Key, flow: Flow, oneToken: bool, l: Lookup, env: Env)
    ensures var looked := acts + [Begin(run, key, flow, oneToken)] + LookupSteps(run, l, env.invalidation);
      acts + Steps(run, key, flow, oneToken, l, env) ==
      if Stops(flow, l, env.invalidation) then looked else looked + TokenSteps(run, env)
  {
  }

  /** What the user is told of a token request. */
  function Answer(api: ApiReply): Outcome
  {
    match api
    case Issued(t) => LoggedIn(t)
    case Blank(_) => LoggedIn("")
    case LateError(_) => GenerationFailed
    case Rejected => GenerationFailed
  }

  function OutcomeOf(flow: Flow, l: Lookup, env: Env): Outcome
  {
    if Stops(flow, l, env.invalidation) then BadCredentials else Answer(env.api)
  }

  /** The steps of a login are one request, or none after an unauthorised invalidation, and a store of what came. */
  lemma StepsEnd(run: nat, key: Key, flow: Flow, oneToken: bool, l: Lookup, env: Env)
    ensures var steps := Steps(run, key, flow, oneToken, l, env); var n := |steps|;
      && 2 <= n && steps[0] == Begin(run, key, flow, oneToken)
      && (steps[n - 1] == Invalidate(run, Unauthorised) <==>
          flow.TokenAuth? && l.Stored? && env.invalidation.Unauthorised?)
      && (steps[n - 1] == Invalidate(run, Unauthorised) || match env.api
          case Issued(t) => steps[n - 2] == Ask(run, Granted(t)) && steps[n - 1] == Store(run, env.storeOk)
          case Blank(t) => steps[n - 1] == Ask(run, Unheard(t))
          case LateError(t) => steps[n - 1] == Ask(run, Unheard(t))
          case Rejected => steps[n - 1] == Ask(run, Denied))
  {
  }

  /** What the user is told, read off the end of the steps. */
  lemma OutcomeTellsSteps(run: nat, key: Key, flow: Flow, oneToken: bool, l: Lookup, env: Env)
    requires env.api.Issued? ==> env.api.token != ""
    ensures var steps := Steps(run, key, flow, oneToken, l, env);
      var n, outcome := |steps|, OutcomeOf(flow, l, env);
      && 2 <= n
      && (outcome.BadCredentials? <==> steps[n - 1] == Invalidate(run, Unauthorised))
      && (outcome.GenerationFailed? <==>
          steps[n - 1] == Ask(run, if env.api.LateError? then Unheard(env.api.token) else Denied))
      && (outcome == LoggedIn("") <==> env.api.Blank? && steps[n - 1] == Ask(run, Unheard(env.api.token)))
      && (outcome.LoggedIn? && outcome.token != "" <==> steps[n - 1] == Store(run, env.storeOk))
      && (steps[n - 1] == Store(run, env.storeOk) ==> steps[n - 2] == Ask(run, Granted(outcome.token)))
  {
    StepsEnd(run, key, flow, oneToken, l, env);
  }

  class TykIdentityHandler {
    const profileId: string
    const codec: Codec
    const oneToken: bool           // !disableOneTokenPerAPI
    var store: map<Key, string>    // the identity cache, as texts
    ghost var acts: seq<Action>    // the protocol steps so far
    ghost var world: World
    ghost var runs: nat

    /** The recorded steps are a run of the protocol. */
    ghost predicate Logged()
      reads this
    {
      && Exec(acts) == Some(world)
      && (oneToken ==> Sequential(acts))
      && (forall r :: r in world.logins ==> r < runs)
    }

    /** The store holds the texts of the cached tokens. */
    ghost predicate Matches()
      reads this
    {
      && store.Keys == world.cache.Keys
      && (forall k :: k in store ==> store[k] == codec.enc(world.cache[k]))
    }

    ghost predicate Valid()
      reads this
    {
      Logged() && Matches()
    }

    /** Login `run` is for `key` and of this flow. */
    ghost predicate Runs(run: nat, key: Key, flow: Flow)
      reads this
    {
      run in world.logins && world.logins[run].key == key && world.logins[run].flow == flow
    }

    /** Login `run` is about to invalidate `token`. */
    ghost predicate Dropping(run: nat, token: Token)
      reads this
    {
      && run in world.logins && (world.logins[run].phase.Invalidating? || world.logins[run].phase.Misreading?)
      && world.logins[run].phase.prior == token
    }

    /** Since `before`, no other login moved. */
    ghost predicate OnlyMoved(before: World, run: nat)
      reads this
    {
      && world.logins.Keys == before.logins.Keys + {run}
      && forall r :: r in before.logins && r != run ==> world.logins[r] == before.logins[r]
    }

    /** What one login leaves in the store. */
    function StoreAfter(before: map<Key, string>, key: Key, flow: Flow, l: Lookup, env: Env): map<Key, string>
    {
      if Stops(flow, l, env.invalidation) then before else StoreWith(before, key, env)
    }

    /** What asking for a token leaves in the store. */
    function StoreWith(before: map<Key, string>, key: Key, env: Env): map<Key, string>
    {
      if env.api.Issued? && env.storeOk then before[key := codec.enc(env.api.token)] else before
    }

    /** The gateway makes new tokens, and an issued one is not empty. */
    ghost predicate Honest(api: ApiReply)
      reads this
    {
      (api.Rejected? || api.token !in world.home) && (api.Issued? ==> api.token != "")
    }

    constructor (profileId: string, codec: Codec, oneToken: bool)
      ensures Valid() && Idle(world) && acts == [] && world == INIT && store == map[]
      ensures this.profileId == profileId && this.codec == codec && this.oneToken == oneToken && runs == 0
    {
      this.profileId, this.codec, this.oneToken := profileId, codec, oneToken;
      store, acts, world, runs := map[], [], INIT, 0;
    }

    /** Records a protocol step. */
    ghost method Do(a: Action)
      requires Logged() && Enabled(world, a)
      requires a.Begin? ==> a.run == runs && a.oneToken == oneToken && (oneToken ==> Idle(world))
      modifies `acts, `world, `runs
      ensures Logged()
      ensures acts == old(acts) + [a] && world == Apply(old(world), a)
      ensures runs == if a.Begin? then old(runs) + 1 else old(runs)
    {
      ExecSnoc(acts, a);
      assert forall i :: 0 <= i <= |acts| ==> (acts + [a])[..i] == acts[..i];
      world := Apply(world, a);
      acts := acts + [a];
      runs := if a.Begin? then runs + 1 else runs;
    }

    /** Records what a lookup came to. */
    ghost method Look(run: nat, key: Key, flow: Flow, a: Action)
      requires Valid() && Runs(run, key, flow)
      requires (a.Read? || a.ReadFails?) && a.run == run && Enabled(world, a)
      modifies `acts, `world, `runs
      ensures Valid() && acts == old(acts) + [a] && Runs(run, key, flow)
      ensures OnlyMoved(old(world), run) && world.home == old(world).home && runs == old(runs)
      ensures if a.Read? && a.got.Some? then Dropping(run, a.got.value) else world.logins[run].phase.Requesting?
    {
      Do(a);
    }

    /** Store.GetKey: an I/O error, "not found", a text that does not decode, or a token. */
    method GetKey(ghost run: nat, ghost flow: Flow, key: Key, readOk: bool)
      returns (err: bool, value: Token, ghost l: Lookup)
      requires Valid() && oneToken && Runs(run, key, flow) && world.logins[run].phase.Reading?
      modifies `acts, `world, `runs
      ensures Valid() && l == LookUp(codec, true, store, key, readOk)
      ensures !err <==> readOk && key in store && codec.dec(store[key]).Some?
      ensures !err ==> codec.dec(store[key]) == Some(value)
      ensures Runs(run, key, flow) && (if err then world.logins[run].phase.Requesting? else Dropping(run, value))
      ensures !err ==> l == Stored(value)
      ensures err <==> !l.Stored?
      ensures acts == old(acts) + (if err then LookupSteps(run, l, Accepted) else [Read(run, Some(value))])
      ensures OnlyMoved(old(world), run) && world.home == old(world).home && runs == old(runs)
    {
      err, value, l := true, "", LookUp(codec, true, store, key, readOk);
      if !readOk {
        Look(run, key, flow, ReadFails(run));
      } else if key !in store {
        Look(run, key, flow, Read(run, None));
      } else {
        match codec.dec(store[key])
        case None =>
          Look(run, key, flow, ReadFails(run));
        case Some(v) =>
          err, value := false, v;
          Look(run, key, flow, Read(run, Some(v)));
      }
    }

    /** API.InvalidateToken: an error, and whether the caller was authorised. */
    method InvalidateToken(ghost run: nat, ghost key: Key, ghost flow: Flow, token: Token, reply: Reply)
      returns (err: bool, authorised: bool)
      requires Valid() && Runs(run, key, flow) && Dropping(run, token)
      modifies `acts, `world, `runs
      ensures Valid() && acts == old(acts) + [Invalidate(run, reply)]
      ensures OnlyMoved(old(world), run) && world.home == old(world).home && runs == old(runs)
      ensures err <==> !reply.Accepted?
      ensures authorised <==> !reply.Unauthorised?
      ensures reply.Accepted? ==> token !in world.live
      ensures Runs(run, key, flow)
      ensures if reply.Unauthorised? && flow.TokenAuth? then world.logins[run].phase.Done?
        else world.logins[run].phase.Requesting?
    {
      Do(Invalidate(run, reply));
      err, authorised := !reply.Accepted?, !reply.Unauthorised?;
    }

    /** API.RequestStandardToken and API.RequestOAuthToken: an error, or a token that may be empty. */
    method RequestToken(ghost run: nat, ghost key: Key, ghost flow: Flow, api: ApiReply)
      returns (err: bool, token: Token)
      requires Valid() && Runs(run, key, flow) && world.logins[run].phase.Requesting?
      requires api.Rejected? || api.token !in world.home
      modifies `acts, `world, `runs
      ensures Valid() && acts == old(acts) + [Ask(run, IssueOf(api))]
      ensures OnlyMoved(old(world), run) && runs == old(runs)
      ensures err <==> api.LateError? || api.Rejected?
      ensures token == if api.Issued? then api.token else ""
      ensures Runs(run, key, flow)
      ensures if api.Issued? then Holds(world, run, token) else world.logins[run].phase.Done?
    {
      Do(Ask(run, IssueOf(api)));
      err := api.LateError? || api.Rejected?;
      token := if api.Issued? then api.token else "";
    }

    /** Store.SetKey; the handlers ignore its error. */
    method SetKey(ghost run: nat, ghost flow: Flow, key: Key, token: Token, storeOk: bool)
      requires Valid() && Runs(run, key, flow) && Holds(world, run, token)
      modifies `store, `acts, `world, `runs
      ensures Valid() && acts == old(acts) + [Store(run, storeOk)]
      ensures OnlyMoved(old(world), run) && world.home == old(world).home && runs == old(runs)
      ensures store == if storeOk then old(store)[key := codec.enc(token)] else old(store)
      ensures Runs(run, key, flow) && world.logins[run].phase.Done?
    {
      Do(Store(run, storeOk));
      if storeOk {
        store := store[key := codec.enc(token)];
      }
    }

    ghost method Begins(run: nat, key: Key, flow: Flow)
      requires Valid() && run == runs && (oneToken ==> Idle(world))
      modifies `acts, `world, `runs
      ensures Valid() && acts == old(acts) + [Begin(run, key, flow, oneToken)]
      ensures Runs(run, key, flow) && OnlyMoved(old(world), run)
      ensures if oneToken then world.logins[run].phase.Reading? else world.logins[run].phase.Requesting?
      ensures world.home == old(world).home && runs == old(runs) + 1
    {
      Do(Begin(run, key, flow, oneToken));
    }

    /** Looks the identity up and, if it has a token, invalidates that; true if that was unauthorised. */
    method InvalidatePrior(ghost run: nat, ghost flow: Flow, key: Key, env: Env, ghost l: Lookup)
      returns (unauthorised: bool)
      requires Valid() && Runs(run, key, flow)
      requires if oneToken then world.logins[run].phase.Reading? else world.logins[run].phase.Requesting?
      requires l == LookUp(codec, oneToken, store, key, env.readOk)
      modifies `acts, `world, `runs
      ensures Valid() && acts == old(acts) + LookupSteps(run, l, env.invalidation)
      ensures OnlyMoved(old(world), run) && world.home == old(world).home && runs == old(runs)
      ensures unauthorised <==> l.Stored? && env.invalidation.Unauthorised?
      ensures Runs(run, key, flow)
      ensures if Stops(flow, l, env.invalidation) then world.logins[run].phase.Done?
        else world.logins[run].phase.Requesting?
    {
      unauthorised := false;
      if oneToken {
        var fErr, value;
        ghost var found;
        fErr, value, found := GetKey(run, flow, key, env.readOk);
        if !fErr {
          var iErr, isAuthorized := InvalidateToken(run, key, flow, value, env.invalidation);
          if iErr {
            unauthorised := !isAuthorized;
          }
        }
      }
    }

    /** Asks for a new token and, if one comes back, caches it. */
    method NewToken(ghost run: nat, ghost flow: Flow, key: Key, env: Env) returns (outcome: Outcome)
      requires Valid() && Runs(run, key, flow) && world.logins[run].phase.Requesting? && Honest(env.api)
      modifies `store, `acts, `world, `runs
      ensures Valid() && OnlyMoved(old(world), run)
      ensures Runs(run, key, flow) && world.logins[run].phase.Done? && runs == old(runs)
      ensures acts == old(acts) + TokenSteps(run, env)
      ensures store == StoreWith(old(store), key, env)
      ensures outcome == match env.api
        case Issued(t) => LoggedIn(t)
        case Blank(_) => LoggedIn("")
        case LateError(_) => GenerationFailed
        case Rejected => GenerationFailed
      ensures store ==
        if env.api.Issued? && env.storeOk then old(store)[key := codec.enc(env.api.token)] else old(store)
    {
      var err, token := RequestToken(run, key, flow, env.api);
      if err {
        return GenerationFailed;
      }
      if token != "" {
        SetKey(run, flow, key, token, env.storeOk);
      }
      return LoggedIn(token);
    }

    /** What both kinds of login begin with. */
    method Prepare(ghost run: nat, ghost flow: Flow, key: Key, env: Env, ghost l: Lookup) returns (unauthorised: bool)
      requires Valid() && run == runs && (oneToken ==> Idle(world))
      requires l == LookUp(codec, oneToken, store, key, env.readOk)
      modifies `acts, `world, `runs
      ensures Valid() && OnlyMoved(old(world), run) && world.home == old(world).home && runs == old(runs) + 1
      ensures acts == old(acts) + [Begin(run, key, flow, oneToken)] + LookupSteps(run, l, env.invalidation)
      ensures unauthorised <==> l.Stored? && env.invalidation.Unauthorised?
      ensures Runs(run, key, flow)
      ensures if Stops(flow, l, env.invalidation) then world.logins[run].phase.Done?
        else world.logins[run].phase.Requesting?
    {
      Begins(run, key, flow);
      unauthorised := InvalidatePrior(run, flow, key, env, l);
    }

    /** CompleteIdentityActionForTokenAuth: an unauthorised invalidation stops it. */
    method CompleteIdentityActionForTokenAuth(userId: string, provider: string, env: Env) returns (outcome: Outcome)
      requires Valid() && (oneToken ==> Idle(world)) && Honest(env.api)
      modifies `store, `acts, `world, `runs
      ensures Valid() && (old(Idle(world)) ==> Idle(world)) && runs == old(runs) + 1
      ensures var key := CacheKeys.IdWithProfile(profileId, userId, provider);
        var l := LookUp(codec, oneToken, old(store), key, env.readOk);
        && acts == old(acts) + Steps(old(runs), key, TokenAuth, oneToken, l, env)
        && store == StoreAfter(old(store), key, TokenAuth, l, env)
        && outcome == OutcomeOf(TokenAuth, l, env)
      ensures var key := CacheKeys.IdWithProfile(profileId, userId, provider);
        outcome ==
          if oneToken && env.readOk && key in old(store) && codec.dec(old(store)[key]).Some?
            && env.invalidation.Unauthorised? then BadCredentials
          else match env.api
            case Issued(t) => LoggedIn(t)
            case Blank(_) => LoggedIn("")
            case LateError(_) => GenerationFailed
            case Rejected => GenerationFailed
      ensures var key := CacheKeys.IdWithProfile(profileId, userId, provider);
        store == if outcome.LoggedIn? && outcome.token != "" && env.storeOk
          then old(store)[key := codec.enc(outcome.token)] else old(store)
    {
      var key := CacheKeys.IdWithProfile(profileId, userId, provider);
      ghost var run := runs;
      ghost var l := LookUp(codec, oneToken, store, key, env.readOk);
      var unauthorised := Prepare(run, TokenAuth, key, env, l);
      StepsJoin(old(acts), run, key, TokenAuth, oneToken, l, env);
      if unauthorised {
        return BadCredentials;
      }
      outcome := NewToken(run, TokenAuth, key, env);
    }

    /** CompleteIdentityActionForOAuth: it goes on even after an unauthorised invalidation. */
    method CompleteIdentityActionForOAuth(userId: string, provider: string, env: Env) returns (outcome: Outcome)
      requires Valid() && (oneToken ==> Idle(world)) && Honest(env.api)
      modifies `store, `acts, `world, `runs
      ensures Valid() && (old(Idle(world)) ==> Idle(world)) && runs == old(runs) + 1
      ensures var key := CacheKeys.IdWithProfile(profileId, userId, provider);
        var l := LookUp(codec, oneToken, old(store), key, env.readOk);
        && acts == old(acts) + Steps(old(runs), key, OAuth, oneToken, l, env)
        && store == StoreAfter(old(store), key, OAuth, l, env)
        && outcome == OutcomeOf(OAuth, l, env)
      ensures var key := CacheKeys.IdWithProfile(profileId, userId, provider);
        outcome ==
          match env.api
            case Issued(t) => LoggedIn(t)
            case Blank(_) => LoggedIn("")
            case LateError(_) => GenerationFailed
            case Rejected => GenerationFailed
      ensures var key := CacheKeys.IdWithProfile(profileId, userId, provider);
        store == if outcome.LoggedIn? && outcome.token != "" && env.storeOk
          then old(store)[key := codec.enc(outcome.token)] else old(store)
    {
      var key := CacheKeys.IdWithProfile(profileId, userId, provider);
      ghost var run := runs;
      ghost var l := LookUp(codec, oneToken, store, key, env.readOk);
      var unauthorised := Prepare(run, OAuth, key, env, l);
      StepsJoin(old(acts), run, key, OAuth, oneToken, l, env);
      outcome := NewToken(run, OAuth, key, env);
    }

    /** A login leaves the cached token of every other identity alone, if IDs and providers keep to their characters. */
    lemma OthersKeepTheirs(
      before: map<Key, string>, userId: string, provider: string, flow: Flow, l: Lookup, env: Env,
      otherProfile: string, otherUser: string, otherProvider: string)
      requires '-' !in profileId && '-' !in otherProfile && '@' !in provider && '@' !in otherProvider
      requires (otherProfile, otherUser, otherProvider) != (profileId, userId, provider)
      ensures var mine := CacheKeys.IdWithProfile(profileId, userId, provider);
        var theirs := CacheKeys.IdWithProfile(otherProfile, otherUser, otherProvider);
        var after := StoreAfter(before, mine, flow, l, env);
        (theirs in after <==> theirs in before) && (theirs in before ==> after[theirs] == before[theirs])
    {
      if CacheKeys.SameKey(profileId, userId, provider, otherProfile, otherUser, otherProvider) {
        CacheKeys.KeysInjective(profileId, userId, provider, otherProfile, otherUser, otherProvider);
      }
    }

    /** At rest, an identity has at most one live token for each fault of its logins, and one more. */
    lemma LiveTokensBounded(key: Key)
      requires Valid() && oneToken && Idle(world)
      ensures |LiveFor(world, key)| <= 1 + |FaultsFor(world, key)|
      ensures forall f :: f in FaultsFor(world, key) ==>
        f.ReadFault? || f.InvalidateFault? || f.ReplyFault? || f.StoreFault?
    {
      SequentialBound(acts, key);
    }
  }
}
