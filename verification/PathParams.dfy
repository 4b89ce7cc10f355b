/** The provider chosen when an authentication begins, carried to its callback through the shared store. */
module PathParams {
  import opened Wrappers
  import opened Encoding
  import CacheKeys
  import opened Redis

  /** tothic.PathParam. */
  datatype PathParam = PathParam(id: string, provider: string)

  /** encoding/json on PathParam. */
  type ParamJson = Json<PathParam>

  function Field(params: map<string, string>, name: string): string
  {
    if name in params then params[name] else ""
  }

  /** What a begin saves: ":provider", if there is one, takes the place of "provider". */
  function Chosen(params: map<string, string>): PathParam
  {
    PathParam(Field(params, "id"), if ":provider" in params then params[":provider"] else Field(params, "provider"))
  }

  /** The parameters of a request: a map that the caller shares. */
  class Params {
    var m: map<string, string>

    constructor (m: map<string, string>)
      ensures this.m == m
    {
      this.m := m;
    }
  }

  /** The caller's parameters after a begin: ":provider" has been renamed. */
  function Renamed(params: map<string, string>): map<string, string>
  {
    if ":provider" in params then (params - {":provider"})["provider" := params[":provider"]] else params
  }

  /** What a begin does to the database: nothing, if the parameters do not encode. */
  function Begun(j: ParamJson, prefix: string, db: Database, key: string, p: PathParam, ok: bool): Database
  {
    match j.marshal(p) case None => db case Some(text) => Step(db, Set(prefix, key, text, ok))
  }

  /** SetPathParams edits the caller's map and saves what it then holds; a failed save is only logged. */
  method SetPathParams(
    j: ParamJson, store: RedisBackend, newPathParams: Params, orgId: string, profileId: string, ok: bool)
    modifies newPathParams, store.kv
    ensures newPathParams.m == Renamed(old(newPathParams.m))
    ensures var was, m := old(newPathParams.m), newPathParams.m;
      if ":provider" in was then
        && m.Keys == was.Keys - {":provider"} + {"provider"} && m["provider"] == was[":provider"]
        && forall k :: k in m && k != "provider" ==> m[k] == was[k]
      else m == was
    ensures var m := newPathParams.m;
      var param := PathParam(if "id" in m then m["id"] else "", if "provider" in m then m["provider"] else "");
      if ok && j.marshal(param).Some? then
        store.kv.db == old(store.kv.db)[store.prefix + CacheKeys.Prefix(orgId, profileId) := j.marshal(param).value]
      else store.kv.db == old(store.kv.db)
    ensures store.kv.db == Begun(
      j, store.prefix, old(store.kv.db), CacheKeys.Prefix(orgId, profileId), Chosen(old(newPathParams.m)), ok)
  {
    if ":provider" in newPathParams.m {
      newPathParams.m := newPathParams.m["provider" := newPathParams.m[":provider"]];
      newPathParams.m := newPathParams.m - {":provider"};
    }
    var param := PathParam(Field(newPathParams.m, "id"), Field(newPathParams.m, "provider"));
    var jsonbody := j.marshal(param);
    if jsonbody.Some? {
      var err := store.SetKey(CacheKeys.Prefix(orgId, profileId), jsonbody.value, ok);
    }
  }

  /** Beginning twice with one map chooses, and leaves, what beginning once does. */
  lemma RenamedAgain(params: map<string, string>)
    ensures Renamed(Renamed(params)) == Renamed(params) && Chosen(Renamed(params)) == Chosen(params)
  {
  }

  /** GetParams: whatever goes wrong, the parameters are empty. */
  function ParamsOf(j: ParamJson, text: Option<string>): PathParam
  {
    if text.None? || j.unmarshal(text.value).None? then PathParam("", "") else j.unmarshal(text.value).value
  }

  // ---------- from begin to callback ----------

  /** What happens on the shared database: a begin, or a token cached or dropped by the identity handler. */
  datatype Event =
    | Begin(orgId: string, profileId: string, params: map<string, string>, saved: bool)
    | Cache(key: string, token: string)
    | Drop(key: string)

  /** The operation of an event; a begin whose parameters do not encode is one that fails. */
  function OpOf(j: ParamJson, e: Event): Op
  {
    match e
    case Begin(o, p, params, saved) =>
      (match j.marshal(Chosen(params))
      case Some(text) => Set(PROVIDER_CONFIG, CacheKeys.Prefix(o, p), text, saved)
      case None => Set(PROVIDER_CONFIG, CacheKeys.Prefix(o, p), "", false))
    case Cache(k, t) => Set(IDENTITY_CACHE, k, t, true)
    case Drop(k) => Del(IDENTITY_CACHE, k, true)
  }

  function Ops(j: ParamJson, es: seq<Event>): seq<Op>
  {
    seq(|es|, i requires 0 <= i < |es| => OpOf(j, es[i]))
  }

  /** A begin that saved its parameters under this key. */
  predicate Saved(j: ParamJson, e: Event, key: string)
  {
    e.Begin? && OpOf(j, e).ok && CacheKeys.Prefix(e.orgId, e.profileId) == key
  }

  /** The latest begin that saved under this key. */
  ghost predicate LatestSaved(j: ParamJson, es: seq<Event>, at: nat, key: string)
  {
    at < |es| && Saved(j, es[at], key) && forall i :: at < i < |es| ==> !Saved(j, es[i], key)
  }

  lemma {:induction false} LatestStays(j: ParamJson, es: seq<Event>, at: nat, key: string)
    requires LatestSaved(j, es, at, key)
    ensures Holds(Alone(map[], PROVIDER_CONFIG, Ops(j, es)), key) == j.marshal(Chosen(es[at].params))
  {
    var n := |es| - 1;
    assert Ops(j, es)[..n] == Ops(j, es[..n]);
    BrokerPrefixesAreApart();
    if at < n {
      LatestStays(j, es[..n], at, key);
    }
  }

  lemma EventsDoNotClash(j: ParamJson, es: seq<Event>)
    ensures NoClash(Ops(j, es), PROVIDER_CONFIG)
  {
    BrokerPrefixesAreApart();
  }

  /** A callback sees the parameters of the latest begin saved under its profile's key, whatever else went on. */
  lemma CallbackSeesLatestSaved(j: ParamJson, es: seq<Event>, at: nat, key: string)
    requires j.Lawful() && LatestSaved(j, es, at, key)
    ensures ParamsOf(j, View(Steps(map[], Ops(j, es)), PROVIDER_CONFIG, key)) == Chosen(es[at].params)
  {
    LatestStays(j, es, at, key);
    EventsDoNotClash(j, es);
    BackendsAreIndependent(Ops(j, es), PROVIDER_CONFIG, key);
  }

  /** No organisation of a begin continues this one after a '-', or is continued by it. */
  ghost predicate OrgsApart(es: seq<Event>, orgId: string)
  {
    forall i :: 0 <= i < |es| && es[i].Begin? ==>
      !CacheKeys.Continues(es[i].orgId, '-', orgId) && !CacheKeys.Continues(orgId, '-', es[i].orgId)
  }

  /** The latest begin of this very profile that saved. */
  ghost predicate LatestBegin(j: ParamJson, es: seq<Event>, at: nat, orgId: string, profileId: string)
  {
    && at < |es| && es[at].Begin? && es[at].orgId == orgId && es[at].profileId == profileId && OpOf(j, es[at]).ok
    && forall i :: at < i < |es| && es[i].Begin? && es[i].orgId == orgId && es[i].profileId == profileId ==>
      !OpOf(j, es[i]).ok
  }

  /** If organisations are apart, that is the latest begin of the callback's own profile. */
  lemma CallbackSeesLatestBegin(j: ParamJson, es: seq<Event>, at: nat, orgId: string, profileId: string)
    requires j.Lawful() && LatestBegin(j, es, at, orgId, profileId) && OrgsApart(es, orgId)
    ensures var text := View(Steps(map[], Ops(j, es)), PROVIDER_CONFIG, CacheKeys.Prefix(orgId, profileId));
      ParamsOf(j, text) == Chosen(es[at].params)
  {
    var key := CacheKeys.Prefix(orgId, profileId);
    forall i | at < i < |es| ensures !Saved(j, es[i], key) {
      if Saved(j, es[i], key) {
        CacheKeys.PrefixesMeetOnlyIf(es[i].orgId, es[i].profileId, orgId, profileId);
      }
    }
    CallbackSeesLatestSaved(j, es, at, key);
  }

  /** A saved begin, then one of another organisation, and the first one's callback is given the second's parameters. */
  ghost predicate Intrudes(
    j: ParamJson, es: seq<Event>, orgId: string, other: string, mine: PathParam, theirs: PathParam)
  {
    && |es| == 2 && es[0].Begin? && es[0].saved && es[0].orgId == orgId && es[1].Begin? && es[1].orgId == other
    && Chosen(es[0].params) == mine && Chosen(es[1].params) == theirs
    && var key := CacheKeys.Prefix(orgId, es[0].profileId);
      ParamsOf(j, View(Steps(map[], Ops(j, es)), PROVIDER_CONFIG, key)) == theirs
  }

  function BeginOf(orgId: string, profileId: string, p: PathParam): Event
  {
    Begin(orgId, profileId, map["id" := p.id, "provider" := p.provider], true)
  }

  lemma SharedKeyIntrudes(
    j: ParamJson, orgId: string, profileId: string, other: string, otherId: string, mine: PathParam, theirs: PathParam)
    requires j.Lawful() && j.marshal(mine).Some? && j.marshal(theirs).Some?
    requires CacheKeys.Prefix(orgId, profileId) == CacheKeys.Prefix(other, otherId)
    ensures Intrudes(j, [BeginOf(orgId, profileId, mine), BeginOf(other, otherId, theirs)], orgId, other, mine, theirs)
  {
    CallbackSeesLatestSaved(
      j, [BeginOf(orgId, profileId, mine), BeginOf(other, otherId, theirs)], 1, CacheKeys.Prefix(orgId, profileId));
  }

  lemma OnlySharedKeysIntrude(
    j: ParamJson, es: seq<Event>, orgId: string, other: string, mine: PathParam, theirs: PathParam)
    requires j.Lawful() && j.marshal(mine).Some? && mine != theirs
    requires Intrudes(j, es, orgId, other, mine, theirs)
    ensures CacheKeys.Prefix(orgId, es[0].profileId) == CacheKeys.Prefix(other, es[1].profileId)
  {
    var key := CacheKeys.Prefix(orgId, es[0].profileId);
    if CacheKeys.Prefix(other, es[1].profileId) != key {
      CallbackSeesLatestSaved(j, es, 0, key);
    }
  }

  /** A saved begin of one organisation can be overridden by another's exactly if one ID continues the other. */
  lemma OthersCanIntrudeExactlyWhen(j: ParamJson, orgId: string, other: string, mine: PathParam, theirs: PathParam)
    requires j.Lawful() && j.marshal(mine).Some? && j.marshal(theirs).Some?
    requires mine != theirs && orgId != other
    ensures (exists es: seq<Event> :: Intrudes(j, es, orgId, other, mine, theirs))
      <==> CacheKeys.Continues(orgId, '-', other) || CacheKeys.Continues(other, '-', orgId)
  {
    CacheKeys.PrefixesMeetExactlyWhen(orgId, other);
    if p, q :| CacheKeys.Prefix(orgId, p) == CacheKeys.Prefix(other, q) {
      SharedKeyIntrudes(j, orgId, p, other, q, mine, theirs);
    }
    if es: seq<Event> :| Intrudes(j, es, orgId, other, mine, theirs) {
      OnlySharedKeysIntrude(j, es, orgId, other, mine, theirs);
    }
  }

  // ---------- the callback ----------

  /** The database is what these events left, and `at` is the latest begin of this profile. */
  ghost predicate CameFrom(
    j: ParamJson, store: RedisBackend, es: seq<Event>, at: nat, orgId: string, profileId: string)
    reads store, store.kv
  {
    && j.Lawful() && store.prefix == PROVIDER_CONFIG && store.kv.db == Steps(map[], Ops(j, es))
    && LatestBegin(j, es, at, orgId, profileId) && OrgsApart(es, orgId)
  }

  /**
   * getProviderName: None for "you must select a provider". After any run of begins and token traffic it is
   * the provider of the latest saved begin of the profile.
   */
  method GetProviderName(j: ParamJson, store: RedisBackend, orgId: string, profileId: string, ok: bool)
    returns (name: Option<string>)
    ensures !ok ==> name == None
    ensures name.Some? ==> name.value != ""
    ensures var text := store.Sees(CacheKeys.Prefix(orgId, profileId));
      && (name.Some? <==>
          ok && text.Some? && j.unmarshal(text.value).Some? && j.unmarshal(text.value).value.provider != "")
      && (name.Some? ==> name.value == j.unmarshal(text.value).value.provider)
    ensures forall es: seq<Event>, at: nat :: CameFrom(j, store, es, at, orgId, profileId) && ok ==>
      var chosen := Chosen(es[at].params).provider;
      name == if chosen == "" then None else Some(chosen)
  {
    var text := store.GetKey(CacheKeys.Prefix(orgId, profileId), ok);
    var provider := ParamsOf(j, text).provider;
    forall es: seq<Event>, at: nat | CameFrom(j, store, es, at, orgId, profileId) && ok
      ensures provider == Chosen(es[at].params).provider
    {
      CallbackSeesLatestBegin(j, es, at, orgId, profileId);
    }
    name := if provider == "" then None else Some(provider);
  }
}
