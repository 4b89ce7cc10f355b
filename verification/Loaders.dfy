/** The two loaders: profiles in a Mongo collection, and profiles in a JSON file. */
module Loaders {
  import opened Wrappers
  import opened Encoding
  import opened Paths
  import opened Sequences
  import opened Profiles

  /** The loop both loaders end with: profiles that do not encode are skipped. */
  method FileInto(store: InMemoryBackend, profiles: seq<Profile>)
    requires store.Valid()
    modifies store
    ensures store.Valid() && store.Contents() == FileAll(old(store.Contents()), Fileable(store.json, profiles))
  {
    for i := 0 to |profiles|
      invariant store.Valid()
      invariant store.Contents() == FileAll(old(store.Contents()), Fileable(store.json, profiles[..i]))
    {
      assert profiles[..i + 1][..i] == profiles[..i];
      FileAllSnoc(old(store.Contents()), Fileable(store.json, profiles[..i]), profiles[i]);
      var inputErr := store.SetKey(profiles[i].id, profiles[i]);
    }
    assert profiles[..|profiles|] == profiles;
  }

  /** A listing of a registry, filed into an empty store, is that registry again. */
  lemma ListedReload(store: InMemoryBackend, ps: seq<Profile>)
    requires store.Valid() && Lists(ps, store.Contents())
    ensures FileAll(map[], Fileable(store.json, ps)) == store.Contents()
  {
    forall i | 0 <= i < |ps| ensures store.json.marshal(ps[i]).Some? {
      assert store.Contents()[ps[i].id] == ps[i];
    }
    AllFileable(store.json, ps);
    ListingReloads(ps, store.Contents());
  }

  /** What a flush that broke off leaves loads as a part of the registry: nothing stale, nothing invented. */
  lemma PartialReload(ps: seq<Profile>, m: Registry, i: nat)
    requires Lists(ps, m) && i <= |ps|
    ensures |FileAll(map[], ps[..i])| == i
    ensures forall k :: k in FileAll(map[], ps[..i]) ==> k in m && FileAll(map[], ps[..i])[k] == m[k]
  {
    var part := ps[..i];
    FileAllKeys(part);
    DistinctCount(part);
    forall k | k in FileAll(map[], part) ensures k in m && FileAll(map[], part)[k] == m[k] {
      var j :| 0 <= j < |part| && part[j].id == k;
      FileAllHas(part, j);
    }
  }

  // ---------- Mongo ----------

  /** A deletion that fails may have removed some profiles already; `kept` says which it had not. */
  datatype DeleteReply = Deleted | NoRows | DeleteFailed(kept: Profile -> bool)

  /** The profiles of `ps` that are kept, in order. */
  function Filtered(ps: seq<Profile>, kept: Profile -> bool): (r: seq<Profile>)
    ensures forall p :: p in r <==> p in ps && kept(p)
  {
    if ps == [] then []
    else if kept(ps[0]) then [ps[0]] + Filtered(ps[1..], kept)
    else Filtered(ps[1..], kept)
  }

  /**
   * How the driver answers one flush; `insertFails` is the element whose insertion fails, if any, and
   * `insertedAnyway` tells whether it was carried out all the same.
   */
  datatype MongoEnv = MongoEnv(delete: DeleteReply, insertFails: Option<nat>, insertedAnyway: bool)

  class MongoLoader {
    var collection: seq<Profile>

    constructor (collection: seq<Profile>)
      ensures this.collection == collection
    {
      this.collection := collection;
    }

    method LoadIntoStore(store: InMemoryBackend, queryOk: bool) returns (err: bool)
      requires store.Valid()
      modifies store
      ensures err <==> !queryOk
      ensures store.Valid()
      ensures store.Contents() ==
        if queryOk then FileAll(old(store.Contents()), Fileable(store.json, collection)) else old(store.Contents())
    {
      if !queryOk {
        return true;
      }
      FileInto(store, collection);
      return false;
    }

    /**
     * Empties the collection and inserts every profile. A nil result leaves exactly the registry; a failed
     * insertion leaves the profiles before it in the order of the walk, and its own if it took effect anyway; a
     * failed deletion leaves what it kept.
     */
    method Flush(store: InMemoryBackend, env: MongoEnv) returns (err: bool, ghost updatedSet: seq<Profile>)
      requires store.Valid() && (env.delete.NoRows? ==> collection == [])
      modifies this
      ensures Lists(updatedSet, store.Contents())
      ensures err <==> env.delete.DeleteFailed? || (env.insertFails.Some? && env.insertFails.value < |updatedSet|)
      ensures collection ==
        if env.delete.DeleteFailed? then Filtered(old(collection), env.delete.kept)
        else if err then updatedSet[..env.insertFails.value + if env.insertedAnyway then 1 else 0]
        else updatedSet
    {
      var profiles := store.GetAll();
      updatedSet := profiles;
      if env.delete.DeleteFailed? {
        collection := Filtered(collection, env.delete.kept);
        return true, updatedSet;
      }
      if env.delete.Deleted? {
        collection := [];
      }
      err := InsertAll(profiles, env);
    }

    /** Inserts the profiles into the emptied collection, up to one whose insertion fails. */
    method InsertAll(profiles: seq<Profile>, env: MongoEnv) returns (err: bool)
      requires collection == []
      modifies this
      ensures err <==> env.insertFails.Some? && env.insertFails.value < |profiles|
      ensures collection == if err
        then profiles[..env.insertFails.value + if env.insertedAnyway then 1 else 0]
        else profiles
    {
      for i := 0 to |profiles|
        invariant collection == profiles[..i]
        invariant env.insertFails.Some? ==> i <= env.insertFails.value
      {
        assert profiles[..i + 1] == profiles[..i] + [profiles[i]];
        if env.insertFails == Some(i) {
          if env.insertedAnyway {
            collection := collection + [profiles[i]];
          }
          return true;
        }
        collection := collection + [profiles[i]];
      }
      assert profiles[..|profiles|] == profiles;
      return false;
    }
  }

  // ---------- file ----------

  /** encoding/json on lists of profiles. */
  type ListJson = Json<seq<Profile>>

  /** A write that succeeds, or fails and leaves the file alone or torn. */
  datatype WriteReply = Written | Untouched | Torn(left: string)

  /** How the clock and the file system answer one flush. */
  datatype FileEnv = FileEnv(readOk: bool, ts: string, backupWrite: WriteReply, saveWrite: WriteReply)

  /** The texts of the files there are. */
  type Files = map<Location, string>

  function AfterWrite(files: Files, at: Location, text: string, reply: WriteReply): Files
  {
    match reply
    case Written => files[at := text]
    case Untouched => files
    case Torn(left) => files[at := left]
  }

  /** What an empty store holds after a load of this. */
  function Reloaded(json: ProfileJson, durable: Option<seq<Profile>>): Registry
  {
    match durable case None => map[] case Some(ps) => FileAll(map[], Fileable(json, ps))
  }

  class FileLoader {
    const cwd: Location       // the working directory
    const profileDir: string
    const fileName: string
    const json: ListJson
    var files: Files

    constructor (cwd: Location, profileDir: string, fileName: string, json: ListJson, files: Files)
      ensures this.cwd == cwd && this.profileDir == profileDir && this.fileName == fileName
      ensures this.json == json && this.files == files
    {
      this.cwd, this.profileDir, this.fileName, this.json, this.files := cwd, profileDir, fileName, json, files;
    }

    /** The file a load reads, named by FileName alone. */
    function ReadFrom(): Location
    {
      Locate(cwd, fileName)
    }

    /** The file a flush writes, named by path.Join(ProfileDir, FileName). */
    function SaveTo(): Location
    {
      Joined(cwd, profileDir, fileName)
    }

    function BackupTo(env: FileEnv): Location
    {
      Joined(cwd, profileDir, "profiles_backup_" + env.ts + ".json")
    }

    /** A flush writes the file that a load reads. */
    predicate SavesWhereItReads()
    {
      SaveTo() == ReadFrom()
    }

    /** The files after a copy that succeeded and a save that may not have. */
    function Saved(before: Files, env: FileEnv, text: string): Files
      requires ReadFrom() in before
    {
      AfterWrite(before[BackupTo(env) := before[ReadFrom()]], SaveTo(), text, env.saveWrite)
    }

    /** What a load would read. */
    function Readable(): Option<seq<Profile>>
      reads this
    {
      if ReadFrom() in files then json.unmarshal(files[ReadFrom()]) else None
    }

    /** A missing file is an error; a file that does not decode is not, but nothing is loaded from it. */
    method LoadIntoStore(store: InMemoryBackend, readOk: bool) returns (err: bool)
      requires store.Valid()
      modifies store
      ensures err <==> !readOk || ReadFrom() !in files
      ensures store.Valid()
      ensures store.Contents() ==
        if !err && Readable().Some? then FileAll(old(store.Contents()), Fileable(store.json, Readable().value))
        else old(store.Contents())
    {
      if !readOk || ReadFrom() !in files {
        return true;
      }
      var profiles := json.unmarshal(files[ReadFrom()]);
      if profiles.None? {
        return false;
      }
      FileInto(store, profiles.value);
      return false;
    }

    /**
     * Copies the file aside, then writes the registry to the save path. The result of that second write is not
     * looked at, so nil says only that the copy was made and the registry encoded.
     */
    method Flush(store: InMemoryBackend, env: FileEnv) returns (err: bool, ghost newSet: seq<Profile>)
      requires store.Valid()
      modifies this
      ensures Lists(newSet, store.Contents())
      ensures err <==>
        !env.readOk || ReadFrom() !in old(files) || !env.backupWrite.Written? || json.marshal(newSet).None?
      ensures !err ==> files == Saved(old(files), env, json.marshal(newSet).value)
      ensures !env.readOk || ReadFrom() !in old(files) ==> files == old(files)
      ensures !err && BackupTo(env) != SaveTo() ==>
        BackupTo(env) in files && files[BackupTo(env)] == old(files)[ReadFrom()]
      ensures !err && env.saveWrite.Written? ==> SaveTo() in files && Some(files[SaveTo()]) == json.marshal(newSet)
      ensures forall f :: f in old(files) && f != BackupTo(env) && f != SaveTo() ==>
        f in files && files[f] == old(files)[f]
      ensures err && BackupTo(env) != ReadFrom() ==> Readable() == old(Readable())
    {
      var profiles := store.GetAll();
      newSet := profiles;
      if !env.readOk || ReadFrom() !in files {
        return true, newSet;
      }
      var oldSet := files[ReadFrom()];
      files := AfterWrite(files, BackupTo(env), oldSet, env.backupWrite);
      var wErr := !env.backupWrite.Written?;
      if wErr {
        return true, newSet;
      }
      var asJson := json.marshal(profiles);
      if asJson.None? {
        return true, newSet;
      }
      files := AfterWrite(files, SaveTo(), asJson.value, env.saveWrite);
      var w2Err := !env.saveWrite.Written?;
      if wErr {
        return w2Err, newSet;
      }
      return false, newSet;
    }

    /** What a load reads after a nil flush. */
    function AfterNil(before: Files, env: FileEnv, newSet: seq<Profile>): Option<seq<Profile>>
      requires ReadFrom() in before
    {
      if !SavesWhereItReads() || env.saveWrite.Untouched? then json.unmarshal(before[ReadFrom()])
      else if env.saveWrite.Torn? then json.unmarshal(env.saveWrite.left)
      else Some(newSet)
    }

    /**
     * After a nil flush a load reads a listing of the registry exactly if it reads the file that was written and
     * the write took, or failed but left such a listing, or if the file was not written but was one before.
     */
    lemma NilFlushMeans(before: Files, env: FileEnv, newSet: seq<Profile>, m: Registry)
      requires json.Lawful() && ReadFrom() in before && json.marshal(newSet).Some? && Lists(newSet, m)
      requires files == Saved(before, env, json.marshal(newSet).value)
      ensures Readable() == AfterNil(before, env, newSet)
      ensures Durably(Readable(), m) <==>
        || (SavesWhereItReads() && env.saveWrite.Written?)
        || (SavesWhereItReads() && env.saveWrite.Torn? && Durably(json.unmarshal(env.saveWrite.left), m))
        || ((!SavesWhereItReads() || env.saveWrite.Untouched?) && Durably(json.unmarshal(before[ReadFrom()]), m))
    {
    }

    /** For a file name without "..", when a flush writes the file that a load reads. */
    lemma SavesWhereItReadsExactlyWhen()
      requires ".." !in Split(fileName, "/")
      ensures SavesWhereItReads() <==> profileDir == "" || Locate(cwd, profileDir) == Base(cwd, fileName)
    {
      JoinKeepsFileExactlyWhen(cwd, profileDir, fileName);
    }
  }

  // ---------- flushing and loading again ----------

  /** A Mongo flush that answers nil, then a load into an empty store: the registry again. */
  method MongoRoundTrip(loader: MongoLoader, store: InMemoryBackend, other: InMemoryBackend, env: MongoEnv)
    returns (err: bool)
    requires store.Valid() && other.Valid() && other != store
    requires other.json == store.json && other.Contents() == map[]
    requires env.delete.NoRows? ==> loader.collection == []
    modifies loader, other
    ensures other.Valid() && store.Contents() == old(store.Contents())
    ensures !err ==> other.Contents() == store.Contents()
    ensures err ==> other.Contents() == map[]
  {
    ghost var listed;
    err, listed := loader.Flush(store, env);
    if !err {
      ListedReload(store, listed);
      err := loader.LoadIntoStore(other, true);
    }
  }

  /**
   * A file flush that answers nil, then a load into an empty store: the registry again if the save goes where
   * the load looks and its write takes, and otherwise what was there before or what the torn write left.
   */
  method FileRoundTrip(loader: FileLoader, store: InMemoryBackend, other: InMemoryBackend, env: FileEnv)
    returns (err: bool)
    requires store.Valid() && other.Valid() && other != store
    requires other.json == store.json && other.Contents() == map[] && loader.json.Lawful()
    modifies loader, other
    ensures other.Valid() && store.Contents() == old(store.Contents())
    ensures err ==> other.Contents() == map[]
    ensures !err && loader.SavesWhereItReads() && env.saveWrite.Written? ==> other.Contents() == store.Contents()
    ensures !err && loader.SavesWhereItReads() && env.saveWrite.Torn? ==>
      other.Contents() == Reloaded(other.json, loader.json.unmarshal(env.saveWrite.left))
    ensures !err && (!loader.SavesWhereItReads() || env.saveWrite.Untouched?) ==>
      other.Contents() == Reloaded(other.json, old(loader.Readable()))
    ensures (env.readOk && env.backupWrite.Written? && loader.ReadFrom() in old(loader.files)
      && forall ps :: Lists(ps, store.Contents()) ==> loader.json.marshal(ps).Some?) ==> !err
  {
    ghost var before, listed := loader.files, [];
    err, listed := loader.Flush(store, env);
    if !err {
      loader.NilFlushMeans(before, env, listed, store.Contents());
      ListedReload(store, listed);
      err := loader.LoadIntoStore(other, true);
    }
  }

  method NewStore(json: ProfileJson) returns (store: InMemoryBackend)
    requires json.Lawful() && json.Closed()
    ensures fresh(store) && store.json == json && store.Valid() && store.Contents() == map[]
  {
    store := new InMemoryBackend(json);
    store.Init();
  }

  lemma OneListed(ps: seq<Profile>, p: Profile)
    requires Lists(ps, map[p.id := p])
    ensures ps == [p]
  {
  }

  /** With a profile directory configured, a new profile is flushed with a nil answer and is not there on reload. */
  method NilFlushLoses(dir: string, name: string, json: ProfileJson, listJson: ListJson, p: Profile)
    returns (err: bool, store: InMemoryBackend, other: InMemoryBackend)
    requires Simple(dir) && Simple(name)
    requires json.Lawful() && json.Closed() && listJson.Lawful() && json.marshal(p).Some?
    requires listJson.marshal([]).Some? && listJson.marshal([p]).Some?
    ensures !err && store.Valid() && other.Valid()
    ensures store.Contents() == map[p.id := p] && other.Contents() == map[]
  {
    store := NewStore(json);
    other := NewStore(json);
    err := store.SetKey(p.id, p);
    var files: Files := map[Locate([], name) := listJson.marshal([]).value];
    var loader := new FileLoader([], dir, name, listJson, files);
    SimpleJoinMoves([], dir, name);
    forall ps | Lists(ps, store.Contents()) ensures listJson.marshal(ps).Some? {
      OneListed(ps, p);
    }
    err := FileRoundTrip(loader, store, other, FileEnv(true, "0", Written, Written));
  }
}
