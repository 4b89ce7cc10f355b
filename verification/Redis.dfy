/** Redis backends: several prefixed views of one shared key space. */
module Redis {
  import opened Wrappers
  import opened Sequences

  type Database = map<string, string>

  const IDENTITY_CACHE := "identity-cache."
  const PROVIDER_CONFIG := "tib-provider-config-"

  function FixKey(prefix: string, key: string): string
  {
    prefix + key
  }

  /** strings.Replace(name, prefix, "", 1). */
  function CleanKey(prefix: string, name: string): string
  {
    var i := Index(name, prefix);
    if i < 0 then name else name[..i] + name[i + |prefix|..]
  }

  /** Cleaning undoes fixing, for every key and prefix, even where the prefix occurs again in the key. */
  lemma CleanFix(prefix: string, key: string)
    ensures CleanKey(prefix, FixKey(prefix, key)) == key
  {
    var name := FixKey(prefix, key);
    assert OccursAt(name, prefix, 0);
    IndexIsFirst(name, prefix, 0);
    assert name[..0] + name[|prefix|..] == key;
  }

  /** What is cleaned is the first occurrence of the prefix, wherever that is; a name without it stays. */
  lemma CleanKeyIs(prefix: string, name: string, k: nat)
    ensures (forall i: nat :: !OccursAt(name, prefix, i)) ==> CleanKey(prefix, name) == name
    ensures OccursAt(name, prefix, k) && (forall i: nat :: i < k ==> !OccursAt(name, prefix, i)) ==>
      CleanKey(prefix, name) == name[..k] + name[k + |prefix|..]
  {
    if OccursAt(name, prefix, k) { IndexIsFirst(name, prefix, k); }
  }

  /** The server both backends talk to. */
  class KeyValue {
    var db: Database

    constructor ()
      ensures db == map[]
    {
      db := map[];
    }
  }

  class RedisBackend {
    const kv: KeyValue
    const prefix: string

    constructor (kv: KeyValue, prefix: string)
      ensures this.kv == kv && this.prefix == prefix
    {
      this.kv, this.prefix := kv, prefix;
    }

    /** What this backend can see of the shared database, key by key. */
    function Sees(key: string): Option<string>
      reads kv
    {
      View(kv.db, prefix, key)
    }

    /** Writes a text: a Go string as it is, anything else already encoded as JSON. */
    method SetKey(key: string, text: string, ok: bool) returns (err: bool)
      modifies kv
      ensures err <==> !ok
      ensures kv.db == Step(old(kv.db), Set(prefix, key, text, ok))
      ensures kv.db == if ok then old(kv.db)[prefix + key := text] else old(kv.db)
      ensures ok ==> Sees(key) == Some(text)
    {
      if ok {
        kv.db := kv.db[FixKey(prefix, key) := text];
      }
      err := !ok;
    }

    /** What a backend of its own database would return after the same operations, if no other's prefix clashes. */
    method GetKey(key: string, ok: bool) returns (text: Option<string>)
      ensures text == if ok then Sees(key) else None
      ensures text == if ok && prefix + key in kv.db then Some(kv.db[prefix + key]) else None
      ensures forall ops :: kv.db == Steps(map[], ops) && NoClash(ops, prefix) && ok ==>
        text == Holds(Alone(map[], prefix, ops), key)
    {
      text := None;
      if ok && FixKey(prefix, key) in kv.db {
        text := Some(kv.db[FixKey(prefix, key)]);
      }
      forall ops | kv.db == Steps(map[], ops) && NoClash(ops, prefix)
        ensures Sees(key) == Holds(Alone(map[], prefix, ops), key)
      {
        BackendsAreIndependent(ops, prefix, key);
      }
    }

    method DeleteKey(key: string, ok: bool) returns (err: bool)
      modifies kv
      ensures err <==> !ok
      ensures kv.db == Step(old(kv.db), Del(prefix, key, ok))
      ensures kv.db == if ok then old(kv.db) - {prefix + key} else old(kv.db)
      ensures ok ==> Sees(key) == None
    {
      if ok {
        kv.db := kv.db - {FixKey(prefix, key)};
      }
      err := !ok;
    }
  }

  // ---------- operations of several backends on one database ----------

  datatype Op = Set(prefix: string, key: string, text: string, ok: bool) | Del(prefix: string, key: string, ok: bool)

  function Step(db: Database, op: Op): Database
  {
    if !op.ok then db
    else match op
      case Set(p, k, text, _) => db[FixKey(p, k) := text]
      case Del(p, k, _) => db - {FixKey(p, k)}
  }

  function Steps(db: Database, ops: seq<Op>): Database
  {
    if ops == [] then db else Step(Steps(db, ops[..|ops| - 1]), ops[|ops| - 1])
  }

  function Holds(m: Database, key: string): Option<string>
  {
    if key in m then Some(m[key]) else None
  }

  function View(db: Database, prefix: string, key: string): Option<string>
  {
    Holds(db, FixKey(prefix, key))
  }

  /** Operations under this prefix, or under prefixes that have no key in common with it. */
  ghost predicate NoClash(ops: seq<Op>, prefix: string)
  {
    forall i :: 0 <= i < |ops| ==> ops[i].prefix == prefix || !(ops[i].prefix <= prefix || prefix <= ops[i].prefix)
  }

  /** A map of its own: what a backend would hold if it had the database to itself. */
  function Alone(m: Database, prefix: string, ops: seq<Op>): Database
  {
    if ops == [] then m
    else
      var n := |ops| - 1;
      var before := Alone(m, prefix, ops[..n]);
      if !ops[n].ok || ops[n].prefix != prefix then before
      else match ops[n]
        case Set(_, k, text, _) => before[k := text]
        case Del(_, k, _) => before - {k}
  }

  /** Two prefixes have a key in common exactly when one is a prefix of the other. */
  lemma PrefixesClashExactlyWhen(p: string, q: string)
    ensures (exists k, l :: FixKey(p, k) == FixKey(q, l)) <==> p <= q || q <= p
  {
    if k, l :| FixKey(p, k) == FixKey(q, l) {
      var s := FixKey(p, k);
      assert s[..|p|] == p && s[..|q|] == q;
      if |p| <= |q| { assert p == q[..|p|]; } else { assert q == p[..|q|]; }
    }
    if p <= q {
      assert FixKey(p, q[|p|..]) == FixKey(q, "");
    } else if q <= p {
      assert FixKey(p, "") == FixKey(q, p[|q|..]);
    }
  }

  lemma FixKeyInjective(p: string, k: string, l: string)
    requires FixKey(p, k) == FixKey(p, l)
    ensures k == l
  {
    assert FixKey(p, k)[|p|..] == k && FixKey(p, l)[|p|..] == l;
  }

  /** Backends whose prefixes do not clash behave, over every run, as if each had a map of its own. */
  lemma {:induction false} BackendsAreIndependent(ops: seq<Op>, prefix: string, key: string)
    requires NoClash(ops, prefix)
    ensures View(Steps(map[], ops), prefix, key) == Holds(Alone(map[], prefix, ops), key)
  {
    if ops != [] {
      var n := |ops| - 1;
      var op := ops[n];
      BackendsAreIndependent(ops[..n], prefix, key);
      if FixKey(op.prefix, op.key) == FixKey(prefix, key) {
        PrefixesClashExactlyWhen(op.prefix, prefix);
        FixKeyInjective(prefix, op.key, key);
      }
    }
  }

  /** The two prefixes the broker uses do not clash. */
  lemma BrokerPrefixesAreApart()
    ensures !(IDENTITY_CACHE <= PROVIDER_CONFIG || PROVIDER_CONFIG <= IDENTITY_CACHE)
    ensures IDENTITY_CACHE == "identity-cache." && PROVIDER_CONFIG == "tib-provider-config-"
  {
    assert IDENTITY_CACHE[0] == 'i' && PROVIDER_CONFIG[0] == 't';
  }
}
