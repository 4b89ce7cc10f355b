/**
 * The profile registry: the in-memory backend, the add/update/delete operations over it, and the two
 * loaders that persist it and read it back.
 */
module Profiles {
  import opened Wrappers
  import opened Encoding

  /** tap.Profile: its ID, its organisation and the rest of its settings. */
  datatype Profile = Profile(id: string, orgId: string, settings: string)

  /** encoding/json on profiles. */
  type ProfileJson = Json<Profile>

  type Registry = map<string, Profile>

  /** Every profile is filed under its own ID. */
  ghost predicate Keyed(m: Registry)
  {
    forall k :: k in m ==> m[k].id == k
  }

  /** `ps` lists the registry: every profile once, in some order. */
  ghost predicate Lists(ps: seq<Profile>, m: Registry)
  {
    && |ps| == |m|
    && (forall i :: 0 <= i < |ps| ==> ps[i].id in m && m[ps[i].id] == ps[i])
    && DistinctIds(ps)
  }

  /** The durable copy lists the registry. */
  ghost predicate Durably(durable: Option<seq<Profile>>, m: Registry)
  {
    durable.Some? && Lists(durable.value, m)
  }

  ghost predicate DistinctIds(ps: seq<Profile>)
  {
    forall i, j :: 0 <= i < j < |ps| ==> ps[i].id != ps[j].id
  }

  /** The registry that results from filing `ps` one after the other into `m`. */
  function FileAll(m: Registry, ps: seq<Profile>): Registry
  {
    if ps == [] then m else FileAll(m, ps[..|ps| - 1])[ps[|ps| - 1].id := ps[|ps| - 1]]
  }

  lemma FileAllSnoc(m: Registry, ps: seq<Profile>, p: Profile)
    ensures FileAll(m, ps + [p]) == FileAll(m, ps)[p.id := p]
    ensures FileAll(m, ps + []) == FileAll(m, ps)
  {
    assert (ps + [p])[..|ps|] == ps && ps + [] == ps;
  }

  ghost function Ids(ps: seq<Profile>): set<string>
  {
    set i | 0 <= i < |ps| :: ps[i].id
  }

  lemma IdsSnoc(ps: seq<Profile>)
    requires ps != []
    ensures Ids(ps) == Ids(ps[..|ps| - 1]) + {ps[|ps| - 1].id}
  {
    var n := |ps| - 1;
    assert forall i :: 0 <= i < n ==> ps[..n][i] == ps[i];
    forall x | x in Ids(ps) ensures x in Ids(ps[..n]) + {ps[n].id} {
      var i :| 0 <= i < |ps| && ps[i].id == x;
      assert i < n ==> ps[..n][i].id in Ids(ps[..n]);
    }
  }

  /** The profiles that encode; the loaders skip the others. */
  function Fileable(json: ProfileJson, ps: seq<Profile>): seq<Profile>
  {
    if ps == [] then []
    else
      var n := |ps| - 1;
      Fileable(json, ps[..n]) + if json.marshal(ps[n]).Some? then [ps[n]] else []
  }

  lemma {:induction false} AllFileable(json: ProfileJson, ps: seq<Profile>)
    requires forall i :: 0 <= i < |ps| ==> json.marshal(ps[i]).Some?
    ensures Fileable(json, ps) == ps
  {
    if ps != [] {
      AllFileable(json, ps[..|ps| - 1]);
    }
  }

  lemma FileOneMore(json: ProfileJson, m: Registry, ps: seq<Profile>)
    requires ps != []
    ensures var n := |ps| - 1; var before := FileAll(m, Fileable(json, ps[..n]));
      FileAll(m, Fileable(json, ps)) == if json.marshal(ps[n]).Some? then before[ps[n].id := ps[n]] else before
  {
    FileAllSnoc(m, Fileable(json, ps[..|ps| - 1]), ps[|ps| - 1]);
  }

  lemma LastOfSnoc(json: ProfileJson, ps: seq<Profile>, key: string, i: int)
    requires ps != [] && LastOf(json, ps[..|ps| - 1], key, i)
    requires ps[|ps| - 1].id == key ==> json.marshal(ps[|ps| - 1]).None?
    ensures LastOf(json, ps, key, i)
  {
    assert forall j :: 0 <= j < |ps| - 1 ==> ps[..|ps| - 1][j] == ps[j];
  }

  /** No profile of that ID encodes. */
  ghost predicate NoneOf(json: ProfileJson, ps: seq<Profile>, key: string)
  {
    forall i :: 0 <= i < |ps| && ps[i].id == key ==> json.marshal(ps[i]).None?
  }

  /** Filing only what encodes leaves, under each key, the last such profile of that ID, or what was there. */
  lemma {:induction false} FiledIs(json: ProfileJson, m: Registry, ps: seq<Profile>, key: string)
    ensures var r := FileAll(m, Fileable(json, ps));
      (exists i :: LastOf(json, ps, key, i) && key in r && r[key] == ps[i])
      || (NoneOf(json, ps, key) && (key in r <==> key in m) && (key in m ==> r[key] == m[key]))
  {
    if ps != [] {
      var n := |ps| - 1;
      FileOneMore(json, m, ps);
      if json.marshal(ps[n]).Some? && ps[n].id == key {
        assert LastOf(json, ps, key, n);
      } else {
        FiledIs(json, m, ps[..n], key);
        if i :| LastOf(json, ps[..n], key, i) { LastOfSnoc(json, ps, key, i); }
        if NoneOf(json, ps[..n], key) { NoneOfSnoc(json, ps, key); }
      }
    }
  }

  lemma NoneOfSnoc(json: ProfileJson, ps: seq<Profile>, key: string)
    requires ps != [] && NoneOf(json, ps[..|ps| - 1], key)
    requires ps[|ps| - 1].id == key ==> json.marshal(ps[|ps| - 1]).None?
    ensures NoneOf(json, ps, key)
  {
    assert forall j :: 0 <= j < |ps| - 1 ==> ps[..|ps| - 1][j] == ps[j];
  }

  /** `ps[i]` encodes, and no later profile of its ID does. */
  ghost predicate LastOf(json: ProfileJson, ps: seq<Profile>, key: string, i: int)
  {
    && 0 <= i < |ps| && ps[i].id == key && json.marshal(ps[i]).Some?
    && forall j :: i < j < |ps| && ps[j].id == key ==> json.marshal(ps[j]).None?
  }

  lemma {:induction false} FileAllKeys(ps: seq<Profile>)
    ensures FileAll(map[], ps).Keys == Ids(ps)
  {
    if ps != [] {
      FileAllKeys(ps[..|ps| - 1]);
      IdsSnoc(ps);
    }
  }

  /** Filing distinct profiles files each of them. */
  lemma {:induction false} FileAllHas(ps: seq<Profile>, i: nat)
    requires DistinctIds(ps) && i < |ps|
    ensures ps[i].id in FileAll(map[], ps) && FileAll(map[], ps)[ps[i].id] == ps[i]
  {
    var n := |ps| - 1;
    if i < n {
      assert ps[i].id != ps[n].id;
      FileAllHas(ps[..n], i);
    }
  }

  lemma {:induction false} DistinctCount(ps: seq<Profile>)
    requires DistinctIds(ps)
    ensures |Ids(ps)| == |ps|
  {
    if ps != [] {
      var n := |ps| - 1;
      DistinctCount(ps[..n]);
      IdsSnoc(ps);
      assert ps[n].id !in Ids(ps[..n]);
    }
  }

  /** Filing a listing into an empty registry gives the registry back, whatever its order. */
  lemma ListingReloads(ps: seq<Profile>, m: Registry)
    requires Lists(ps, m)
    ensures FileAll(map[], ps) == m
  {
    var r := FileAll(map[], ps);
    FileAllKeys(ps);
    DistinctCount(ps);
    forall k | k in r ensures k in m && m[k] == r[k] {
      var i :| 0 <= i < |ps| && ps[i].id == k;
      FileAllHas(ps, i);
    }
    SubsetOfSameSize(r.Keys, m.Keys);
  }

  lemma {:induction false} SubsetOfSameSize(s: set<string>, t: set<string>)
    requires s <= t && |s| == |t|
    ensures s == t
    decreases s
  {
    if s != {} {
      var x :| x in s;
      SubsetOfSameSize(s - {x}, t - {x});
      assert t == (t - {x}) + {x};
    } else {
      assert t == {};
    }
  }

  /** backends.InMemoryBackend. */
  class InMemoryBackend {
    const json: ProfileJson
    var kv: Option<map<string, string>>    // None until Init

    /** Initialised, and every entry reads back as a profile with the entry's key as its ID. */
    ghost predicate Valid()
      reads this
    {
      && json.Lawful() && json.Closed() && kv.Some?
      && forall k :: k in kv.value ==> json.unmarshal(kv.value[k]).Some? && json.unmarshal(kv.value[k]).value.id == k
    }

    /** The abstract registry the entries stand for. */
    ghost function Contents(): (m: Registry)
      reads this
      requires Valid()
      ensures Keyed(m) && m.Keys == kv.value.Keys
    {
      map k | k in kv.value :: json.unmarshal(kv.value[k]).value
    }

    constructor (json: ProfileJson)
      ensures this.json == json && kv == None
    {
      this.json, kv := json, None;
    }

    method Init()
      modifies this
      ensures kv == Some(map[])
      ensures json.Lawful() && json.Closed() ==> Valid() && Contents() == map[]
    {
      kv := Some(map[]);
    }

    /** Fails before Init or when the profile does not encode; otherwise files it. */
    method SetKey(key: string, val: Profile) returns (err: bool)
      modifies this
      ensures err <==> old(kv).None? || json.marshal(val).None?
      ensures kv == if err then old(kv) else Some(old(kv).value[key := json.marshal(val).value])
      ensures old(Valid()) && !err && key == val.id ==> Valid() && Contents() == old(Contents())[key := val]
      ensures old(Valid()) && err ==> Valid() && Contents() == old(Contents())
    {
      if kv.None? {
        return true;
      }
      var asByte := json.marshal(val);
      if asByte.None? {
        return true;
      }
      kv := Some(kv.value[key := asByte.value]);
      err := false;
    }

    method DeleteKey(key: string)
      modifies this
      ensures kv == if old(kv).None? then None else Some(old(kv).value - {key})
      ensures old(Valid()) ==> Valid() && Contents() == old(Contents()) - {key}
    {
      if kv.Some? {
        kv := Some(kv.value - {key});
      }
    }

    /** "not found", a text that does not decode, or the profile. */
    method GetKey(key: string) returns (r: Option<Profile>)
      ensures r == if kv.Some? && key in kv.value then json.unmarshal(kv.value[key]) else None
      ensures Valid() ==> r == if key in Contents() then Some(Contents()[key]) else None
    {
      if kv.None? || key !in kv.value {
        return None;
      }
      r := json.unmarshal(kv.value[key]);
    }

    /** Every entry that reads back, in the order the map happens to be walked. */
    method GetAll() returns (target: seq<Profile>)
      ensures Valid() ==> Lists(target, Contents())
      ensures kv.None? ==> target == []
    {
      target := [];
      if kv.None? {
        return;
      }
      var left := kv.value.Keys;
      while left != {}
        invariant left <= kv.value.Keys
        invariant Valid() ==> Listed(target, left)
        decreases left
      {
        var k :| k in left;
        var thisVal := json.unmarshal(kv.value[k]);
        if thisVal.Some? {
          target := target + [thisVal.value];
        }
        left := left - {k};
      }
    }

    /** `ps` lists the entries whose keys are not in `left`. */
    ghost predicate Listed(ps: seq<Profile>, left: set<string>)
      reads this
      requires Valid()
    {
      var m := Contents();
      && left <= m.Keys && |ps| + |left| == |m|
      && (forall i :: 0 <= i < |ps| ==> ps[i].id in m && ps[i].id !in left && m[ps[i].id] == ps[i])
      && DistinctIds(ps)
    }
  }
}
