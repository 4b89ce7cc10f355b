/**
 * Adding, updating and deleting profiles: check, write, flush. Each operation is shown to be an operation
 * on an abstract registry keyed by profile ID, or to leave it alone.
 */
module ProfileActions {
  import opened Wrappers
  import opened Profiles
  import opened Loaders

  datatype HttpError = AlreadyExists | IdMismatch | NotFound | SaveFailed | FlushFailed | LoadFailed

  /** The loader whose Flush the operations are given. */
  datatype Loader = Mongo(m: MongoLoader) | File(f: FileLoader)
  {
    function Objects(): set<object>
    {
      match this case Mongo(m) => {m} case File(f) => {f}
    }

    /** What a restart would load. */
    function Durable(): Option<seq<Profile>>
      reads Objects()
    {
      match this case Mongo(m) => Some(m.collection) case File(f) => f.Readable()
    }

    ghost predicate Ready(env: FlushEnv)
      reads Objects()
    {
      match this
      case Mongo(m) => env.mongo.delete.NoRows? ==> m.collection == []
      case File(f) => f.json.Lawful()
    }

    /** A nil flush means the writes happened: always for Mongo, for files if the save was read-back and took. */
    predicate Reliable(env: FlushEnv)
    {
      match this
      case Mongo(_) => true
      case File(f) => f.SavesWhereItReads() && env.file.saveWrite.Written?
    }
  }

  datatype FlushEnv = FlushEnv(mongo: MongoEnv, file: FileEnv)

  /** Does this flush fail, when the walk of the registry lists `ps`? */
  ghost predicate FlushFails(loader: Loader, env: FlushEnv, ps: seq<Profile>)
    reads loader.Objects()
  {
    match loader
    case Mongo(_) =>
      env.mongo.delete.DeleteFailed? || (env.mongo.insertFails.Some? && env.mongo.insertFails.value < |ps|)
    case File(f) =>
      || !env.file.readOk || f.ReadFrom() !in f.files
      || !env.file.backupWrite.Written? || f.json.marshal(ps).None?
  }

  method Flush(loader: Loader, store: InMemoryBackend, env: FlushEnv) returns (err: bool, ghost listed: seq<Profile>)
    requires store.Valid() && loader.Ready(env)
    modifies loader.Objects()
    ensures Lists(listed, store.Contents()) && (err <==> old(FlushFails(loader, env, listed)))
    ensures !err && loader.Mongo? ==> Lists(loader.m.collection, store.Contents())
    ensures !err && loader.File? && loader.f.SavesWhereItReads() && env.file.saveWrite.Written? ==>
      Durably(loader.f.Readable(), store.Contents())
    ensures !err && loader.Reliable(env) ==> Durably(loader.Durable(), store.Contents())
    ensures err ==> Salvaged(old(loader.Durable()), loader, env, store.Contents())
  {
    match loader
    case Mongo(m) =>
      err, listed := m.Flush(store, env.mongo);
      assert err && !env.mongo.delete.DeleteFailed? ==>
        StartOf(m.collection, listed, |m.collection|, store.Contents());
    case File(f) =>
      ghost var before := f.files;
      err, listed := f.Flush(store, env.file);
      if !err {
        f.NilFlushMeans(before, env.file, listed, store.Contents());
      }
  }

  /**
   * What a failed flush leaves. Mongo: what a failed deletion kept, or the first profiles of a listing of the
   * registry. File: the old copy, unless the backup was itself written over the file.
   */
  ghost predicate Salvaged(before: Option<seq<Profile>>, loader: Loader, env: FlushEnv, m: Registry)
    reads loader.Objects()
  {
    match loader
    case Mongo(l) =>
      if env.mongo.delete.DeleteFailed? then
        before.Some? && l.collection == Filtered(before.value, env.mongo.delete.kept)
      else exists ps, i: nat :: StartOf(l.collection, ps, i, m)
    case File(f) => f.BackupTo(env.file) != f.ReadFrom() ==> f.Readable() == before
  }

  ghost predicate StartOf(left: seq<Profile>, ps: seq<Profile>, i: nat, m: Registry)
  {
    Lists(ps, m) && i <= |ps| && left == ps[..i]
  }

  // ---------- the operations on the abstract registry ----------

  datatype Op = Load(ps: seq<Profile>) | Add(p: Profile) | Update(key: string, p: Profile) | Delete(key: string)

  /** Why an operation is refused before anything is written. */
  function Refusal(m: Registry, op: Op): Option<HttpError>
  {
    match op
    case Load(_) => None
    case Add(p) => if p.id in m && p.id != "" then Some(AlreadyExists) else None
    case Update(key, p) => if p.id != key then Some(IdMismatch) else if key !in m then Some(NotFound) else None
    case Delete(key) => if key !in m then Some(NotFound) else None
  }

  function Effect(m: Registry, op: Op): Registry
  {
    match op
    case Load(ps) => FileAll(m, ps)
    case Add(p) => m[p.id := p]
    case Update(key, p) => m[key := p]
    case Delete(key) => m - {key}
  }

  /** One operation, as seen on the registry and its durable copy. */
  ghost predicate OpStep(
    m: Registry, op: Op, err: Option<HttpError>, m': Registry, durable': Option<seq<Profile>>, reliable: bool)
  {
    match err
    case None => Refusal(m, op).None? && m' == Effect(m, op) && (reliable && !op.Load? ==> Durably(durable', m'))
    case Some(FlushFailed) => Refusal(m, op).None? && m' == Effect(m, op) && !op.Load?
    case Some(SaveFailed) => Refusal(m, op).None? && m' == m && (op.Add? || op.Update?)
    case Some(LoadFailed) => m' == m && op.Load?
    case Some(e) => Refusal(m, op) == Some(e) && m' == m
  }

  /** LoadIntoStore of either loader: what can be read is filed, in order; what does not encode is skipped. */
  method LoadIntoStore(store: InMemoryBackend, loader: Loader, readOk: bool) returns (err: Option<HttpError>)
    requires store.Valid()
    modifies store
    ensures store.Valid()
    ensures var ps := if loader.Durable().Some? then Fileable(store.json, loader.Durable().value) else [];
      OpStep(old(store.Contents()), Load(ps), err, store.Contents(), loader.Durable(), false)
    ensures readOk && loader.Durable().Some? ==> err.None?
    ensures store.Contents() == (if err.None? && loader.Durable().Some?
      then FileAll(old(store.Contents()), Fileable(store.json, loader.Durable().value)) else old(store.Contents()))
    ensures err.None? || err == Some(LoadFailed)
    ensures err.None? <==> readOk && (loader.File? ==> loader.f.ReadFrom() in loader.f.files)
  {
    var lErr;
    match loader {
      case Mongo(m) =>
        lErr := m.LoadIntoStore(store, readOk);
      case File(f) =>
        lErr := f.LoadIntoStore(store, readOk);
    }
    err := if lErr then Some(LoadFailed) else None;
  }

  method AddProfile(profile: Profile, store: InMemoryBackend, loader: Loader, env: FlushEnv)
    returns (err: Option<HttpError>)
    requires store.Valid() && loader.Ready(env) && store !in loader.Objects()
    modifies store, loader.Objects()
    ensures store.Valid()
    ensures OpStep(old(store.Contents()), Add(profile), err, store.Contents(), loader.Durable(), loader.Reliable(env))
    ensures err == Some(AlreadyExists) <==> profile.id in old(store.Contents()) && profile.id != ""
    ensures err == Some(SaveFailed) <==> err != Some(AlreadyExists) && store.json.marshal(profile).None?
    ensures err.None? || err == Some(FlushFailed) ==> store.Contents() == old(store.Contents())[profile.id := profile]
    ensures err.None? || err == Some(FlushFailed) <==> err !in {Some(AlreadyExists), Some(SaveFailed)}
    ensures err.None? || err == Some(FlushFailed) ==> exists ps ::
      Lists(ps, store.Contents()) && (err == Some(FlushFailed) <==> old(FlushFails(loader, env, ps)))
    ensures err.Some? && !err.value.FlushFailed? ==>
      store.Contents() == old(store.Contents()) && loader.Durable() == old(loader.Durable())
  {
    var dumpProfile := store.GetKey(profile.id);
    if dumpProfile.Some? && dumpProfile.value.id != "" {
      return Some(AlreadyExists);
    }
    var saveErr := store.SetKey(profile.id, profile);
    if saveErr {
      return Some(SaveFailed);
    }
    ghost var listed;
    var fErr;
    fErr, listed := Flush(loader, store, env);
    if fErr {
      return Some(FlushFailed);
    }
    return None;
  }

  method UpdateProfile(key: string, profile: Profile, store: InMemoryBackend, loader: Loader, env: FlushEnv)
    returns (err: Option<HttpError>)
    requires store.Valid() && loader.Ready(env) && store !in loader.Objects()
    modifies store, loader.Objects()
    ensures store.Valid()
    ensures OpStep(
      old(store.Contents()), Update(key, profile), err, store.Contents(), loader.Durable(), loader.Reliable(env))
    ensures err == Some(IdMismatch) <==> profile.id != key
    ensures err == Some(NotFound) <==> profile.id == key && key !in old(store.Contents())
    ensures err == Some(SaveFailed) <==>
      profile.id == key && key in old(store.Contents()) && store.json.marshal(profile).None?
    ensures err.None? || err == Some(FlushFailed) ==> store.Contents() == old(store.Contents())[key := profile]
    ensures err.None? || err == Some(FlushFailed) <==> err !in {Some(IdMismatch), Some(NotFound), Some(SaveFailed)}
    ensures err.None? || err == Some(FlushFailed) ==> exists ps ::
      Lists(ps, store.Contents()) && (err == Some(FlushFailed) <==> old(FlushFails(loader, env, ps)))
    ensures err.Some? && !err.value.FlushFailed? ==>
      store.Contents() == old(store.Contents()) && loader.Durable() == old(loader.Durable())
  {
    if profile.id != key {
      return Some(IdMismatch);
    }
    var dumpProfile := store.GetKey(key);
    if dumpProfile.None? {
      return Some(NotFound);
    }
    var saveErr := store.SetKey(key, profile);
    if saveErr {
      return Some(SaveFailed);
    }
    ghost var listed;
    var fErr;
    fErr, listed := Flush(loader, store, env);
    if fErr {
      return Some(FlushFailed);
    }
    return None;
  }

  method DeleteProfile(key: string, store: InMemoryBackend, loader: Loader, env: FlushEnv)
    returns (err: Option<HttpError>)
    requires store.Valid() && loader.Ready(env) && store !in loader.Objects()
    modifies store, loader.Objects()
    ensures store.Valid()
    ensures OpStep(old(store.Contents()), Delete(key), err, store.Contents(), loader.Durable(), loader.Reliable(env))
    ensures err == Some(NotFound) <==> key !in old(store.Contents())
    ensures err != Some(NotFound) ==> store.Contents() == old(store.Contents()) - {key}
    ensures err.None? || err == Some(FlushFailed) <==> err != Some(NotFound)
    ensures err.None? || err == Some(FlushFailed) ==> exists ps ::
      Lists(ps, store.Contents()) && (err == Some(FlushFailed) <==> old(FlushFails(loader, env, ps)))
    ensures err.Some? && !err.value.FlushFailed? ==>
      store.Contents() == old(store.Contents()) && loader.Durable() == old(loader.Durable())
  {
    var dumpProfile := store.GetKey(key);
    if dumpProfile.None? {
      return Some(NotFound);
    }
    store.DeleteKey(key);
    ghost var listed;
    var fErr;
    fErr, listed := Flush(loader, store, env);
    if fErr {
      return Some(FlushFailed);
    }
    return None;
  }

  // ---------- runs ----------

  datatype Entry = Entry(op: Op, err: Option<HttpError>, durable: Option<seq<Profile>>, reliable: bool)

  /** A run of operations: the registry before and after each, and what each answered and left durable. */
  ghost predicate OpRun(ms: seq<Registry>, log: seq<Entry>)
  {
    && |ms| == |log| + 1
    && forall i :: 0 <= i < |log| ==> OpStep(ms[i], log[i].op, log[i].err, ms[i + 1], log[i].durable, log[i].reliable)
  }

  /** Did this operation reach the registry? */
  predicate Written(e: Entry)
  {
    e.err.None? || e.err == Some(FlushFailed)
  }

  /** The registry meant by a log: the effects of the operations that were written, in order. */
  function Replay(m: Registry, log: seq<Entry>): Registry
  {
    if log == [] then m
    else
      var n := |log| - 1;
      var before := Replay(m, log[..n]);
      if Written(log[n]) then Effect(before, log[n].op) else before
  }

  /** Every run refines its replay, and files each profile under its own ID throughout. */
  lemma {:induction false} RunsReplay(ms: seq<Registry>, log: seq<Entry>)
    requires OpRun(ms, log) && Keyed(ms[0])
    ensures ms[|log|] == Replay(ms[0], log)
    ensures Keyed(ms[|log|])
  {
    if log != [] {
      var n := |log| - 1;
      RunsReplay(ms[..n + 1], log[..n]);
      assert ms[..n + 1][n] == ms[n];
      assert OpStep(ms[n], log[n].op, log[n].err, ms[n + 1], log[n].durable, log[n].reliable);
      if log[n].op.Load? { FileAllKeyed(ms[n], log[n].op.ps); }
    }
  }

  lemma {:induction false} FileAllKeyed(m: Registry, ps: seq<Profile>)
    requires Keyed(m)
    ensures Keyed(FileAll(m, ps))
  {
    if ps != [] { FileAllKeyed(m, ps[..|ps| - 1]); }
  }

  /**
   * However many flushes failed before: once an operation answers nil and its flush did what nil says,
   * loading the durable copy into an empty store gives the registry of that moment.
   */
  lemma NilRestoresDurability(ms: seq<Registry>, log: seq<Entry>)
    requires OpRun(ms, log) && Keyed(ms[0]) && log != []
    requires log[|log| - 1].err.None? && log[|log| - 1].reliable && !log[|log| - 1].op.Load?
    ensures log[|log| - 1].durable.Some?
    ensures FileAll(map[], log[|log| - 1].durable.value) == Replay(ms[0], log)
  {
    var n := |log| - 1;
    RunsReplay(ms, log);
    assert OpStep(ms[n], log[n].op, log[n].err, ms[n + 1], log[n].durable, log[n].reliable);
    ListingReloads(log[n].durable.value, ms[n + 1]);
  }

  /** An add that was carried out left every profile already there, exactly if it could not overwrite any. */
  lemma AddKeepsExactlyWhen(
    m: Registry, p: Profile, err: Option<HttpError>, m': Registry, d: Option<seq<Profile>>, r: bool)
    requires Keyed(m) && OpStep(m, Add(p), err, m', d, r) && (err.None? || err == Some(FlushFailed))
    ensures p.id in m' && m'[p.id] == p
    ensures (forall k :: k in m ==> k in m' && m'[k] == m[k]) <==> p.id != "" || "" !in m || m[""] == p
  {
  }

  /** An add with a non-empty ID inserts if absent: it never changes a profile already there. */
  lemma AddInsertsIfAbsent(
    m: Registry, p: Profile, err: Option<HttpError>, m': Registry, d: Option<seq<Profile>>, r: bool)
    requires Keyed(m) && OpStep(m, Add(p), err, m', d, r)
    ensures p.id != "" ==> forall k :: k in m ==> k in m' && m'[k] == m[k]
    ensures err.None? ==> p.id in m' && m'[p.id] == p
    ensures err == Some(AlreadyExists) <==> p.id in m && p.id != ""
  {
    if err.None? || err == Some(FlushFailed) {
      AddKeepsExactlyWhen(m, p, err, m', d, r);
    }
  }

  /** The empty ID is the exception: adding under it twice keeps the second profile. */
  lemma EmptyIdIsOverwritten(p: Profile, q: Profile)
    requires p.id == "" && q.id == "" && p != q
    ensures Refusal(Effect(map[], Add(p)), Add(q)) == None
    ensures Effect(Effect(map[], Add(p)), Add(q)) == map["" := q] != Effect(map[], Add(p))
  {
    assert Effect(map[], Add(p))[""] == p;
  }

  /** A written add of a new profile is undone by deleting it; a written update by updating back. */
  lemma OperationsUndo(m: Registry, p: Profile)
    requires Keyed(m)
    ensures p.id !in m ==> Effect(Effect(m, Add(p)), Delete(p.id)) == m
    ensures p.id in m ==> Effect(Effect(m, Update(p.id, p)), Update(p.id, m[p.id])) == m
    ensures p.id in m ==> Effect(Effect(m, Delete(p.id)), Add(m[p.id])) == m
  {
  }
}
