/**
 * Portal logins of the Tyk identity handler: create-or-update of a developer record found by its SSO key,
 * against a developer API that may fail at every call.
 */
module Portal {
  import opened Wrappers
  import CacheKeys

  /** tyk.PortalDeveloper, as far as a login reads or writes it. */
  datatype Developer = Developer(
    email: string,
    orgId: string,
    keys: map<string, seq<string>>,
    subscriptions: map<string, string>,
    fields: map<string, string>,
    nonce: string,
    ssoKey: string)

  /** The developers the dashboard holds, by record ID. */
  type Directory = map<nat, Developer>

  /** Garbled is a success whose body does not decode; the caller is given an empty developer, and no error. */
  datatype Lookup = Answered | Garbled | Unauthorised | Broken

  /** A write is carried out, refused, or carried out without the caller being told. */
  datatype Reply = Applied | Refused | Unconfirmed

  /** The answers the dashboard gives during one login. */
  datatype Env = Env(nonce: Option<string>, lookup: Lookup, create: Reply, update: Reply)

  datatype Outcome = Redirect(nonce: string) | LoginFailed

  ghost predicate HasKey(d: Directory, id: nat, key: string)
  {
    id in d && d[id].ssoKey == key
  }

  ghost predicate Present(d: Directory, key: string)
  {
    exists id :: HasKey(d, id, key)
  }

  /** At most one developer per SSO key. */
  ghost predicate UniqueKeys(d: Directory)
  {
    forall i, j, key :: HasKey(d, i, key) && HasKey(d, j, key) ==> i == j
  }

  /** What an update may change: a missing email, and the nonce. */
  predicate Refreshed(before: Developer, after: Developer, nonce: string, email: string)
  {
    after == before.(nonce := nonce, email := if before.email == "" then email else before.email)
  }

  /** The answer to the login's one write: an update of the developer found, or else a creation. */
  ghost function WriteReply(d: Directory, key: string, env: Env): Reply
  {
    if env.lookup.Garbled? || (env.lookup.Answered? && Present(d, key)) then env.update else env.create
  }

  /** Does this login get as far as its write? */
  predicate Proceeds(env: Env)
  {
    env.nonce.Some? && !env.lookup.Unauthorised?
  }

  /** Does this login write a record? An update of the empty developer names none. */
  ghost predicate Writes(d: Directory, key: string, env: Env)
  {
    Proceeds(env) && !env.lookup.Garbled? && !WriteReply(d, key, env).Refused?
  }

  /** Exactly one record was written: the one found, refreshed, or a new one. */
  ghost predicate Wrote(orgId: string, d: Directory, d': Directory, key: string, email: string, env: Env, id: nat)
    requires env.nonce.Some?
  {
    && id in d' && d' == d[id := d'[id]]
    && (if env.lookup.Answered? && Present(d, key)
        then HasKey(d, id, key) && Refreshed(d[id], d'[id], env.nonce.value, email)
        else id !in d && d'[id] == Developer(email, orgId, map[], map[], map[], env.nonce.value, key))
  }

  ghost predicate LoginStep(
    orgId: string, d: Directory, d': Directory, key: string, email: string, env: Env, outcome: Outcome)
  {
    && outcome == (if Proceeds(env) && WriteReply(d, key, env).Applied? then Redirect(env.nonce.value) else LoginFailed)
    && if Writes(d, key, env) then exists id :: Wrote(orgId, d, d', key, email, env, id) else d' == d
  }

  class PortalHandler {
    const orgId: string
    var developers: Directory

    constructor (orgId: string, developers: Directory)
      ensures this.orgId == orgId && this.developers == developers
    {
      this.orgId, this.developers := orgId, developers;
    }

    /** GetDeveloperBySSOKey: a developer with that key, none, or an error, and whether the caller was authorised. */
    method GetDeveloperBySSOKey(key: string, lookup: Lookup) returns (id: Option<nat>, err: bool, authorised: bool)
      ensures authorised <==> !lookup.Unauthorised?
      ensures lookup.Answered? ==> (err <==> !Present(developers, key))
      ensures lookup.Garbled? ==> !err && id == None
      ensures lookup.Unauthorised? || lookup.Broken? ==> err
      ensures !err && !lookup.Garbled? ==> id.Some? && HasKey(developers, id.value, key)
    {
      id, err, authorised := None, !lookup.Garbled?, !lookup.Unauthorised?;
      var ids := developers.Keys;
      while lookup.Answered? && ids != {}
        invariant ids <= developers.Keys
        invariant forall i :: i in developers && i !in ids ==> developers[i].ssoKey != key
        decreases ids
      {
        var i :| i in ids;
        if developers[i].ssoKey == key {
          assert HasKey(developers, i, key);
          id, err := Some(i), false;
          return;
        }
        ids := ids - {i};
      }
    }

    /** The dashboard files a new record under an ID it has not used. */
    method CreateDeveloper(dev: Developer, reply: Reply) returns (err: bool, ghost id: nat)
      modifies this
      ensures err <==> !reply.Applied?
      ensures !reply.Refused? ==> id !in old(developers) && developers == old(developers)[id := dev]
      ensures reply.Refused? ==> developers == old(developers)
    {
      id := 0;
      if !reply.Refused? {
        var n := FreshId(developers.Keys);
        id := n;
        developers := developers[n := dev];
      }
      err := !reply.Applied?;
    }

    /** The dashboard replaces the record of that ID; an empty developer names none. */
    method UpdateDeveloper(id: Option<nat>, dev: Developer, reply: Reply) returns (err: bool)
      modifies this
      ensures err <==> !reply.Applied?
      ensures developers ==
        if reply.Refused? || id.None? then old(developers) else old(developers)[id.value := dev]
    {
      if !reply.Refused? && id.Some? {
        developers := developers[id.value := dev];
      }
      err := !reply.Applied?;
    }

    /** CompleteIdentityActionForPortal. */
    method CompleteIdentityActionForPortal(userId: string, provider: string, email: string, env: Env)
      returns (outcome: Outcome)
      modifies this
      ensures LoginStep(orgId, old(developers), developers, CacheKeys.SSOKey(userId, provider), email, env, outcome)
    {
      match env.nonce
      case None =>
        return LoginFailed;
      case Some(nonce) =>
        var key := CacheKeys.SSOKey(userId, provider);
        var found, retErr, isAuthorised := GetDeveloperBySSOKey(key, env.lookup);
        if !isAuthorised {
          return LoginFailed;
        }
        ghost var written := 0;
        var err;
        if retErr {
          var newUser := Developer(email, orgId, map[], map[], map[], nonce, key);
          err, written := CreateDeveloper(newUser, env.create);
        } else {
          var thisUser := Developer("", "", map[], map[], map[], "", "");
          if found.Some? {
            thisUser := developers[found.value];
          }
          if thisUser.email == "" {
            thisUser := thisUser.(email := email);
          }
          thisUser := thisUser.(nonce := nonce);
          written := if found.Some? then found.value else 0;
          err := UpdateDeveloper(found, thisUser, env.update);
        }
        assert Writes(old(developers), key, env) ==>
          Wrote(orgId, old(developers), developers, key, email, env, written);
        if err {
          return LoginFailed;
        }
        return Redirect(nonce);
    }
  }

  method FreshId(ids: set<nat>) returns (n: nat)
    ensures n !in ids
  {
    n := 0;
    var rest := ids;
    while rest != {}
      invariant forall i :: i in ids && i !in rest ==> i < n
      decreases rest
    {
      var i :| i in rest;
      if n <= i { n := i + 1; }
      rest := rest - {i};
    }
  }

  // ---------- what a login answers and writes ----------

  /** A login redirects exactly when it has a nonce, is authorised and its one write is acknowledged. */
  lemma RedirectsExactlyWhen(
    orgId: string, d: Directory, d': Directory, key: string, email: string, env: Env, outcome: Outcome)
    requires LoginStep(orgId, d, d', key, email, env, outcome)
    ensures outcome.Redirect? <==> env.nonce.Some? && match env.lookup
      case Answered => (if exists id :: id in d && d[id].ssoKey == key then env.update else env.create) == Applied
      case Garbled => env.update == Applied
      case Unauthorised => false
      case Broken => env.create == Applied
    ensures outcome.Redirect? ==> Some(outcome.nonce) == env.nonce
  {
    assert (exists id :: id in d && d[id].ssoKey == key) <==> Present(d, key) by {
      if id :| id in d && d[id].ssoKey == key { assert HasKey(d, id, key); }
    }
  }

  /** A login without a nonce, unauthorised, garbled or refused its write leaves the directory as it was. */
  lemma RefusedLoginsWriteNothing(
    orgId: string, d: Directory, d': Directory, key: string, email: string, env: Env, outcome: Outcome)
    requires LoginStep(orgId, d, d', key, email, env, outcome)
    requires env.nonce.None? || match env.lookup
      case Answered => (if exists id :: id in d && d[id].ssoKey == key then env.update else env.create) == Refused
      case Garbled => true
      case Unauthorised => true
      case Broken => env.create == Refused
    ensures d' == d
  {
    assert (exists id :: id in d && d[id].ssoKey == key) <==> Present(d, key) by {
      if id :| id in d && d[id].ssoKey == key { assert HasKey(d, id, key); }
    }
  }

  /** Where there was no record of the key, a login that writes adds one, of that email and organisation. */
  lemma NewDeveloperIs(
    orgId: string, d: Directory, d': Directory, key: string, email: string, env: Env, outcome: Outcome)
    returns (id: nat)
    requires LoginStep(orgId, d, d', key, email, env, outcome)
    requires env.nonce.Some? && !env.create.Refused?
    requires env.lookup.Broken? || (env.lookup.Answered? && forall i :: i in d ==> d[i].ssoKey != key)
    ensures id !in d && d'.Keys == d.Keys + {id} && forall i :: i in d ==> d'[i] == d[i]
    ensures d'[id].email == email && d'[id].orgId == orgId && d'[id].ssoKey == key
    ensures Some(d'[id].nonce) == env.nonce
    ensures d'[id].keys == map[] && d'[id].subscriptions == map[] && d'[id].fields == map[]
  {
    assert env.lookup.Answered? ==> !Present(d, key);
    id :| Wrote(orgId, d, d', key, email, env, id);
  }

  /** Where there was one, a login that writes gives it the nonce, and the email if it had none, and nothing else. */
  lemma FoundDeveloperIs(
    orgId: string, d: Directory, d': Directory, key: string, email: string, env: Env, outcome: Outcome)
    returns (id: nat)
    requires LoginStep(orgId, d, d', key, email, env, outcome)
    requires env.nonce.Some? && !env.update.Refused?
    requires env.lookup.Answered? && exists i :: i in d && d[i].ssoKey == key
    ensures id in d && d[id].ssoKey == key
    ensures d'.Keys == d.Keys && forall i :: i in d && i != id ==> d'[i] == d[i]
    ensures Some(d'[id].nonce) == env.nonce
    ensures d'[id].email == if d[id].email == "" then email else d[id].email
    ensures d'[id].orgId == d[id].orgId && d'[id].ssoKey == d[id].ssoKey
    ensures d'[id].keys == d[id].keys && d'[id].subscriptions == d[id].subscriptions && d'[id].fields == d[id].fields
  {
    var i :| i in d && d[i].ssoKey == key;
    assert HasKey(d, i, key);
    id :| Wrote(orgId, d, d', key, email, env, id);
  }

  // ---------- what every login keeps ----------

  /** The developer exists, but the lookup fails for some other reason and a second one is created. */
  ghost predicate MissedLookup(d: Directory, key: string, env: Env)
  {
    env.nonce.Some? && env.lookup.Broken? && !env.create.Refused? && Present(d, key)
  }

  /** One developer per SSO key is kept exactly by the logins whose lookup does not miss an existing one. */
  lemma UniqueExactlyWhen(
    orgId: string, d: Directory, d': Directory, key: string, email: string, env: Env, outcome: Outcome)
    requires UniqueKeys(d) && LoginStep(orgId, d, d', key, email, env, outcome)
    ensures UniqueKeys(d') <==> !MissedLookup(d, key, env)
  {
    if Writes(d, key, env) {
      var id :| Wrote(orgId, d, d', key, email, env, id);
      assert HasKey(d', id, key);
      if MissedLookup(d, key, env) {
        var prior :| HasKey(d, prior, key);
        assert HasKey(d', prior, key) && prior != id;
      } else {
        forall i, j, k | HasKey(d', i, k) && HasKey(d', j, k) ensures i == j {
          if i != id { assert HasKey(d, i, k); }
          if j != id { assert HasKey(d, j, k); }
          assert k == key && (i == id || j == id) ==> i == j by {
            assert id in d ==> HasKey(d, id, key);
          }
        }
      }
    }
  }

  /** After a write every record of the identity carries its nonce, and of no other record has anything changed. */
  lemma WriteCarriesNonce(
    orgId: string, d: Directory, d': Directory, key: string, email: string, env: Env, outcome: Outcome)
    requires UniqueKeys(d) && LoginStep(orgId, d, d', key, email, env, outcome)
    requires Writes(d, key, env) && !MissedLookup(d, key, env)
    ensures Present(d', key) && forall id :: HasKey(d', id, key) ==> d'[id].nonce == env.nonce.value
    ensures forall id :: id in d && d[id].ssoKey != key ==> id in d' && d'[id] == d[id]
    ensures forall id :: id in d ==> id in d' && d'[id] == d[id].(nonce := d'[id].nonce, email := d'[id].email)
    ensures forall id :: id in d && d[id].email != "" ==> d'[id].email == d[id].email
  {
    UniqueExactlyWhen(orgId, d, d', key, email, env, outcome);
    var id :| Wrote(orgId, d, d', key, email, env, id);
    assert HasKey(d', id, key);
  }

  /**
   * A redirect's nonce is on every record of its identity, of which there is one, exactly when the lookup
   * neither was garbled nor missed a record, or that nonce was there before.
   */
  lemma RedirectCarriesNonceExactlyWhen(
    orgId: string, d: Directory, d': Directory, key: string, email: string, env: Env, nonce: string)
    requires UniqueKeys(d) && LoginStep(orgId, d, d', key, email, env, Redirect(nonce))
    ensures Carries(d', key, nonce) <==>
      (!env.lookup.Garbled? && !MissedLookup(d, key, env)) || Carries(d, key, nonce)
  {
    if MissedLookup(d, key, env) {
      var id :| Wrote(orgId, d, d', key, email, env, id);
      assert HasKey(d', id, key);
      forall i | HasKey(d, i, key) ensures HasKey(d', i, key) && d'[i] == d[i] {}
      forall i | HasKey(d', i, key) && i != id ensures HasKey(d, i, key) {}
    } else if !env.lookup.Garbled? {
      WriteCarriesNonce(orgId, d, d', key, email, env, Redirect(nonce));
    }
  }

  ghost predicate Carries(d: Directory, key: string, nonce: string)
  {
    Present(d, key) && forall id :: HasKey(d, id, key) ==> d[id].nonce == nonce
  }

  /** A run of logins of one organisation: the directory after each, and what each was given and told. */
  datatype Entry = Entry(key: string, email: string, env: Env, outcome: Outcome)

  ghost predicate LoginRun(orgId: string, ds: seq<Directory>, log: seq<Entry>)
  {
    && |ds| == |log| + 1
    && forall i :: 0 <= i < |log| ==> EntryStep(orgId, ds[i], ds[i + 1], log[i])
  }

  ghost predicate EntryStep(orgId: string, d: Directory, d': Directory, e: Entry)
  {
    LoginStep(orgId, d, d', e.key, e.email, e.env, e.outcome)
  }

  /** A run never holds two developers with one SSO key exactly when no lookup of it misses an existing one. */
  lemma {:induction false} RunsKeepKeysUniqueExactlyWhen(orgId: string, ds: seq<Directory>, log: seq<Entry>)
    requires LoginRun(orgId, ds, log) && UniqueKeys(ds[0])
    ensures (forall i :: 0 <= i < |ds| ==> UniqueKeys(ds[i])) <==>
      forall i :: 0 <= i < |log| ==> !MissedLookup(ds[i], log[i].key, log[i].env)
  {
    if forall i :: 0 <= i < |log| ==> !MissedLookup(ds[i], log[i].key, log[i].env) {
      RunsKeepKeysUnique(orgId, ds, log);
    } else {
      var i :| 0 <= i < |log| && MissedLookup(ds[i], log[i].key, log[i].env);
      assert EntryStep(orgId, ds[i], ds[i + 1], log[i]);
      if UniqueKeys(ds[i]) {
        UniqueExactlyWhen(orgId, ds[i], ds[i + 1], log[i].key, log[i].email, log[i].env, log[i].outcome);
      }
    }
  }

  /** When no lookup of a run misses an existing developer, it never holds two developers with one SSO key. */
  lemma {:induction false} RunsKeepKeysUnique(orgId: string, ds: seq<Directory>, log: seq<Entry>)
    requires LoginRun(orgId, ds, log) && UniqueKeys(ds[0])
    requires forall i :: 0 <= i < |log| ==> !MissedLookup(ds[i], log[i].key, log[i].env)
    ensures forall i :: 0 <= i < |ds| ==> UniqueKeys(ds[i])
  {
    if log != [] {
      var n := |log| - 1;
      var e := log[n];
      RunsKeepKeysUnique(orgId, ds[..n + 1], log[..n]);
      assert ds[..n + 1][n] == ds[n];
      assert EntryStep(orgId, ds[n], ds[n + 1], e);
      UniqueExactlyWhen(orgId, ds[n], ds[n + 1], e.key, e.email, e.env, e.outcome);
      forall i | 0 <= i < |ds| ensures UniqueKeys(ds[i]) {
        if i <= n { assert ds[..n + 1][i] == ds[i]; }
      }
    }
  }

  /** The latest login of an identity that wrote is the one whose nonce its record carries. */
  lemma {:induction false} RunsCarryLatestNonce(orgId: string, ds: seq<Directory>, log: seq<Entry>, at: nat)
    requires LoginRun(orgId, ds, log) && UniqueKeys(ds[0])
    requires forall i :: 0 <= i < |log| ==> !MissedLookup(ds[i], log[i].key, log[i].env)
    requires at < |log| && Writes(ds[at], log[at].key, log[at].env)
    requires forall i :: at < i < |log| && Writes(ds[i], log[i].key, log[i].env) ==> log[i].key != log[at].key
    ensures Carries(ds[|log|], log[at].key, log[at].env.nonce.value)
    ensures log[at].outcome.Redirect? ==> log[at].outcome.nonce == log[at].env.nonce.value
  {
    var n := |log| - 1;
    var e := log[n];
    RunsKeepKeysUnique(orgId, ds, log);
    assert EntryStep(orgId, ds[n], ds[n + 1], e) && EntryStep(orgId, ds[at], ds[at + 1], log[at]);
    if at == n {
      WriteCarriesNonce(orgId, ds[n], ds[n + 1], e.key, e.email, e.env, e.outcome);
    } else {
      RunsCarryLatestNonce(orgId, ds[..n + 1], log[..n], at);
      assert ds[..n + 1][n] == ds[n] && log[..n][at] == log[at];
      KeepsNonce(orgId, ds[n], ds[n + 1], e, log[at].key, log[at].env.nonce.value);
    }
  }

  lemma KeepsNonce(orgId: string, d: Directory, d': Directory, e: Entry, key: string, nonce: string)
    requires EntryStep(orgId, d, d', e)
    requires Writes(d, e.key, e.env) ==> e.key != key
    requires Carries(d, key, nonce)
    ensures Carries(d', key, nonce)
  {
    var held :| HasKey(d, held, key);
    if Writes(d, e.key, e.env) {
      var id :| Wrote(orgId, d, d', e.key, e.email, e.env, id);
    }
    assert HasKey(d', held, key);
    forall id | HasKey(d', id, key) ensures d'[id].nonce == nonce {
      assert HasKey(d, id, key);
    }
  }
}
