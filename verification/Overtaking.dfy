/**
 * Logins that overlap but of which no call fails: an identity is left with more than one live token exactly
 * when one of its logins was overtaken, that is, another stored between its lookup and its own store.
 */
module Overtaking {
  import opened Wrappers
  import opened TokenProtocol

  /** The step does not fail, and a lookup gives what is cached. */
  ghost predicate CleanStep(w: World, a: Action)
    requires Enabled(w, a)
  {
    match a
    case Begin(_, _, _, oneToken) => oneToken
    case Read(run, got) => got == CachedFor(w, w.logins[run].key)
    case ReadFails(_) => false
    case Invalidate(_, reply) => reply.Accepted?
    case Ask(_, issue) => issue.Granted?
    case Store(_, ok) => ok
  }

  ghost predicate Clean(acts: seq<Action>)
  {
    acts == [] ||
    var n := |acts| - 1;
    Clean(acts[..n]) && Exec(acts).Some? && CleanStep(Exec(acts[..n]).value, acts[n])
  }

  /** Login `run` is about to invalidate `t`. */
  ghost predicate DroppedBy(w: World, run: nat, t: Token)
  {
    run in w.logins && w.logins[run].phase.Invalidating? && w.logins[run].phase.prior == t
  }

  ghost predicate Dropped(w: World, t: Token)
  {
    exists run :: DroppedBy(w, run, t)
  }

  /** What a login holds is live, and nobody is about to invalidate it. */
  ghost predicate HeldAreLive(w: World)
  {
    forall r, t :: Holds(w, r, t) ==> t in w.live && !Dropped(w, t)
  }

  /** Lookups neither failed nor gave anything else than was cached. */
  ghost predicate Plain(w: World)
  {
    forall r :: r in w.logins ==> match w.logins[r].phase
      case Reading => true
      case Invalidating(_) => true
      case Misreading(_) => false
      case Requesting(seen) => seen.Missing? || seen.Found?
      case Storing(seen, _) => seen.Missing? || seen.Found?
      case Done => true
  }

  ghost predicate CleanInv(w: World)
  {
    Inv(w) && Apart(w) && HeldAreLive(w) && Plain(w)
  }

  // ---------- what clean steps do to held and dropped tokens ----------

  lemma DroppedFrom(w: World, a: Action, q: nat, t: Token)
    requires Enabled(w, a) && CleanStep(w, a)
    ensures DroppedBy(Apply(w, a), q, t) <==>
      (DroppedBy(w, q, t) && !(a.Invalidate? && q == a.run)) || (a.Read? && q == a.run && a.got == Some(t))
  {
    if q in w.logins && q != a.run { OthersUnmoved(w, a, q); }
  }

  lemma PlainStep(w: World, a: Action)
    requires Plain(w) && Enabled(w, a) && CleanStep(w, a)
    ensures Plain(Apply(w, a))
  {
  }

  /** What somebody is about to invalidate was made before. */
  lemma DroppedWasMade(w: World, q: nat, t: Token)
    requires Inv(w) && DroppedBy(w, q, t)
    ensures MadeFor(w, t, w.logins[q].key)
  {
    assert LoginOk(w, q);
  }

  lemma HeldAreLiveStep(w: World, a: Action)
    requires CleanInv(w) && Enabled(w, a) && CleanStep(w, a)
    ensures HeldAreLive(Apply(w, a))
  {
    var w' := Apply(w, a);
    forall r, t | Holds(w', r, t) ensures t in w'.live && !Dropped(w', t) {
      HoldsFrom(w, a, r, t);
      LiveFrom(w, a, t);
      if Holds(w, r, t) {
        assert a.Invalidate? ==> Plain(w) && DroppedBy(w, a.run, w.logins[a.run].phase.prior);
      }
      forall q ensures !DroppedBy(w', q, t) {
        DroppedFrom(w, a, q, t);
        if DroppedBy(w, q, t) { DroppedWasMade(w, q, t); }
      }
    }
  }

  lemma CleanInvStep(w: World, a: Action)
    requires CleanInv(w) && Enabled(w, a) && CleanStep(w, a)
    ensures CleanInv(Apply(w, a))
  {
    StepKeepsInv(w, a);
    ApartStep(w, a);
    HeldAreLiveStep(w, a);
    PlainStep(w, a);
  }

  lemma {:induction false} CleanRunsKeep(acts: seq<Action>)
    requires Clean(acts)
    ensures Exec(acts).Some? && CleanInv(Exec(acts).value)
  {
    if acts != [] {
      var n := |acts| - 1;
      CleanRunsKeep(acts[..n]);
      CleanInvStep(Exec(acts[..n]).value, acts[n]);
    }
  }

  // ---------- the tokens an identity will be left with ----------

  /** Logins of an identity that have looked and not yet stored: each will leave a token. */
  ghost function Work(w: World, key: Key): set<nat>
  {
    set r | r in w.logins && w.logins[r].key == key && 1 <= Rank(w.logins[r].phase) <= 3
  }

  /** Live tokens of an identity that are in nobody's hands, neither to be stored nor to be invalidated. */
  ghost function Rest(w: World, key: Key): set<Token>
  {
    set t | t in LiveFor(w, key) && !Dropped(w, t) && !Held(w, t)
  }

  ghost function Count(w: World, key: Key): nat
  {
    |Work(w, key)| + |Rest(w, key)|
  }

  lemma WorkStep(w: World, a: Action, key: Key)
    requires Enabled(w, a) && CleanStep(w, a)
    ensures Work(Apply(w, a), key) ==
      if a.Read? && KeyOf(w, a) == key then Work(w, key) + {a.run}
      else if a.Store? && KeyOf(w, a) == key then Work(w, key) - {a.run}
      else Work(w, key)
  {
    forall r | r in w.logins && r != a.run ensures r in Work(Apply(w, a), key) <==> r in Work(w, key) {
      OthersUnmoved(w, a, r);
    }
  }

  lemma DroppedStep(w: World, a: Action, t: Token)
    requires CleanInv(w) && Enabled(w, a) && CleanStep(w, a)
    ensures var gone := a.Invalidate? && w.logins[a.run].phase.prior == t;
      !gone ==> (Dropped(Apply(w, a), t) <==> Dropped(w, t) || (a.Read? && a.got == Some(t)))
    ensures a.Invalidate? ==> Dropped(w, w.logins[a.run].phase.prior)
  {
    var w' := Apply(w, a);
    forall q ensures DroppedBy(w', q, t) <==>
      (DroppedBy(w, q, t) && !(a.Invalidate? && q == a.run)) || (a.Read? && q == a.run && a.got == Some(t))
    {
      DroppedFrom(w, a, q, t);
    }
    if a.Invalidate? { assert DroppedBy(w, a.run, w.logins[a.run].phase.prior); }
    if a.Read? && a.got == Some(t) { assert DroppedBy(w', a.run, t); }
  }

  lemma HoldsStep(w: World, a: Action, r: nat, t: Token)
    requires Enabled(w, a) && CleanStep(w, a)
    ensures Holds(Apply(w, a), r, t) <==>
      (Holds(w, r, t) && !(a.Store? && r == a.run)) || (a.Ask? && r == a.run && a.issue.token == t)
  {
    if r in w.logins && r != a.run { OthersUnmoved(w, a, r); }
  }

  lemma HeldStep(w: World, a: Action, t: Token)
    requires CleanInv(w) && Enabled(w, a) && CleanStep(w, a)
    ensures Held(Apply(w, a), t) <==>
      (Held(w, t) && !(a.Store? && w.logins[a.run].phase.made == t)) || (a.Ask? && a.issue.token == t)
  {
    var w' := Apply(w, a);
    forall r ensures Holds(w', r, t) <==>
      (Holds(w, r, t) && !(a.Store? && r == a.run)) || (a.Ask? && r == a.run && a.issue.token == t)
    {
      HoldsStep(w, a, r, t);
    }
    if a.Store? { assert Holds(w, a.run, w.logins[a.run].phase.made); }
    if a.Ask? && a.issue.token == t { assert Holds(w', a.run, t); }
  }

  lemma MadeStep(w: World, a: Action, t: Token, key: Key)
    requires Enabled(w, a) && CleanStep(w, a)
    ensures MadeFor(Apply(w, a), t, key) <==> MadeFor(w, t, key) || (a.Ask? && a.issue.token == t && KeyOf(w, a) == key)
  {
  }

  /** A lookup takes what it finds out of the rest; a store puts what was held into it. */
  lemma RestStep(w: World, a: Action, key: Key, t: Token)
    requires CleanInv(w) && Enabled(w, a) && CleanStep(w, a)
    ensures t in Rest(Apply(w, a), key) <==>
      (t in Rest(w, key) && !(a.Read? && a.got == Some(t)))
      || (a.Store? && KeyOf(w, a) == key && w.logins[a.run].phase.made == t)
  {
    LiveFrom(w, a, t);
    MadeStep(w, a, t, key);
    DroppedStep(w, a, t);
    HeldStep(w, a, t);
    if a.Store? {
      assert Holds(w, a.run, w.logins[a.run].phase.made);
      assert LoginOk(w, a.run);
    }
  }

  /** The count never falls. */
  lemma CountStep(w: World, a: Action, key: Key)
    requires CleanInv(w) && Enabled(w, a) && CleanStep(w, a)
    ensures Count(w, key) <= Count(Apply(w, a), key)
  {
    var w' := Apply(w, a);
    WorkStep(w, a, key);
    forall t ensures t in Rest(w', key) <==>
      (t in Rest(w, key) && !(a.Read? && a.got == Some(t)))
      || (a.Store? && KeyOf(w, a) == key && w.logins[a.run].phase.made == t)
    {
      RestStep(w, a, key, t);
    }
    if a.Read? {
      ReadCounts(w, w', a, key);
    } else if a.Store? && KeyOf(w, a) == key {
      StoreCounts(w, w', a, key);
    } else {
      assert Rest(w', key) == Rest(w, key);
    }
  }

  lemma StoreCounts(w: World, w': World, a: Action, key: Key)
    requires Enabled(w, a) && a.Store? && KeyOf(w, a) == key
    requires Work(w', key) == Work(w, key) - {a.run}
    requires forall t :: t in Rest(w', key) <==> t in Rest(w, key) || w.logins[a.run].phase.made == t
    ensures Count(w, key) <= Count(w', key)
  {
    var made := w.logins[a.run].phase.made;
    assert Holds(w, a.run, made) && made !in Rest(w, key);
    assert Rest(w', key) == Rest(w, key) + {made};
    assert Work(w, key) == Work(w', key) + {a.run};
  }

  lemma ReadCounts(w: World, w': World, a: Action, key: Key)
    requires Inv(w) && Enabled(w, a) && CleanStep(w, a) && a.Read?
    requires Work(w', key) == if KeyOf(w, a) == key then Work(w, key) + {a.run} else Work(w, key)
    requires forall t :: t in Rest(w', key) <==> t in Rest(w, key) && a.got != Some(t)
    ensures Count(w, key) <= Count(w', key)
  {
    var found := if a.got.Some? then {a.got.value} else {};
    assert Rest(w', key) == Rest(w, key) - found;
    if KeyOf(w, a) == key {
      assert a.run !in Work(w, key);
    } else {
      assert Rest(w', key) == Rest(w, key);
    }
  }

  // ---------- while the count is at most one ----------

  /** Every login under way for the identity knows what is cached. */
  ghost predicate AllCurrent(w: World, key: Key)
  {
    forall r :: r in Work(w, key) ==> CurrentOk(w, w.logins[r])
  }

  lemma AllCurrentStep(w: World, a: Action, key: Key)
    requires CleanInv(w) && Enabled(w, a) && CleanStep(w, a)
    requires AllCurrent(w, key) && Count(Apply(w, a), key) <= 1
    ensures AllCurrent(Apply(w, a), key)
  {
    var w' := Apply(w, a);
    CountStep(w, a, key);
    WorkStep(w, a, key);
    forall r | r in Work(w', key) ensures CurrentOk(w', w'.logins[r]) {
      if r == a.run {
        CurrentStep(w, a);
      } else {
        OthersUnmoved(w, a, r);
        if StoresFor(w, a, key) {
          TwoAtWork(w, key, a.run, r);
        } else {
          SupersededStep(w, a, key, None);
        }
      }
    }
  }

  lemma TwoAtWork(w: World, key: Key, r: nat, q: nat)
    requires r in Work(w, key) && q in Work(w, key) && r != q
    ensures 2 <= Count(w, key)
  {
    SubsetBound({r, q}, Work(w, key));
  }

  /** At step `j` a store for the identity displaces a token. */
  ghost predicate LossAt(acts: seq<Action>, j: nat, key: Key)
  {
    && j < |acts| && StoredAt(acts, j, key)
    && Enabled(Exec(acts[..j]).value, acts[j]) && Leaky(Exec(acts[..j]).value, acts[j])
  }

  ghost predicate NoLoss(acts: seq<Action>, key: Key)
  {
    forall j: nat :: !LossAt(acts, j, key)
  }

  lemma CurrentStoresLoseNothing(w: World, a: Action, key: Key)
    requires Plain(w) && Enabled(w, a) && StoresFor(w, a, key) && AllCurrent(w, key)
    ensures !Leaky(w, a)
  {
    assert a.run in Work(w, key);
  }

  lemma LossInPrefix(acts: seq<Action>, n: nat, j: nat, key: Key)
    requires j < n <= |acts|
    ensures LossAt(acts[..n], j, key) <==> LossAt(acts, j, key)
  {
    assert acts[..n][..j] == acts[..j];
  }

  /** A run that ends with a count of at most one has lost nothing on the way. */
  lemma {:induction false} SmallCountLosesNothing(acts: seq<Action>, key: Key)
    requires Clean(acts) && Exec(acts).Some? && Count(Exec(acts).value, key) <= 1
    ensures AllCurrent(Exec(acts).value, key)
    ensures NoLoss(acts, key)
  {
    if acts != [] {
      var n := |acts| - 1;
      var w, a := Exec(acts[..n]).value, acts[n];
      CleanRunsKeep(acts[..n]);
      CountStep(w, a, key);
      SmallCountLosesNothing(acts[..n], key);
      AllCurrentStep(w, a, key);
      if StoresFor(w, a, key) { CurrentStoresLoseNothing(w, a, key); }
      NoLossSnoc(acts, key);
    }
  }

  lemma NoLossSnoc(acts: seq<Action>, key: Key)
    requires acts != []
    ensures var n := |acts| - 1;
      NoLoss(acts, key) <==> NoLoss(acts[..n], key) && !LossAt(acts, n, key)
  {
    var n := |acts| - 1;
    forall j: nat | j < n ensures LossAt(acts[..n], j, key) <==> LossAt(acts, j, key) {
      LossInPrefix(acts, n, j, key);
    }
  }

  // ---------- without a loss ----------

  lemma FaultStep(w: World, a: Action, f: Fault)
    requires Enabled(w, a) && CleanStep(w, a) && f in Apply(w, a).faults
    ensures f in w.faults || (a.Store? && f.run == a.run && Leaky(w, a))
    ensures f.run in w.logins ==> f.run in Apply(w, a).logins && Apply(w, a).logins[f.run].key == w.logins[f.run].key
  {
    if f.run in w.logins && f.run != a.run { OthersUnmoved(w, a, f.run); }
  }

  lemma {:induction false} NoLossNoFault(acts: seq<Action>, key: Key)
    requires Clean(acts) && Exec(acts).Some? && NoLoss(acts, key)
    ensures var w := Exec(acts).value; forall f :: f in w.faults ==> f.run in w.logins && w.logins[f.run].key != key
  {
    if acts != [] {
      var n := |acts| - 1;
      var w, a := Exec(acts[..n]).value, acts[n];
      NoLossSnoc(acts, key);
      NoLossNoFault(acts[..n], key);
      forall f | f in Apply(w, a).faults
        ensures f.run in Apply(w, a).logins && Apply(w, a).logins[f.run].key != key
      {
        FaultStep(w, a, f);
      }
    }
  }

  /** When all logins are done, the count is that of the live tokens. */
  lemma IdleCount(w: World, key: Key)
    requires Idle(w)
    ensures Count(w, key) == |LiveFor(w, key)|
  {
    assert Work(w, key) == {};
    assert Rest(w, key) == LiveFor(w, key);
  }

  lemma OneLiveExactlyWhenNoLoss(acts: seq<Action>, key: Key)
    requires Clean(acts) && Exec(acts).Some? && Idle(Exec(acts).value)
    ensures |LiveFor(Exec(acts).value, key)| <= 1 <==> NoLoss(acts, key)
  {
    var w := Exec(acts).value;
    IdleCount(w, key);
    if Count(w, key) <= 1 {
      SmallCountLosesNothing(acts, key);
    }
    if NoLoss(acts, key) {
      NoLossNoFault(acts, key);
      OneTokenBound(acts, key);
      assert InFlight(w, key) == {} && FaultsFor(w, key) == {};
    }
  }

  // ---------- overtaken logins ----------

  /** The login that stores at step `j` looked at step `i`, and another stored for the identity in between. */
  ghost predicate Overtaken(acts: seq<Action>, i: nat, j: nat, key: Key)
  {
    && j < |acts| && acts[j].Store?
    && LookedAt(acts[..j], i, acts[j].run, key) && Disturbed(acts[..j], i, key)
  }

  /** A login that is past its lookup did look. */
  lemma {:induction false} LookupOf(acts: seq<Action>, run: nat) returns (i: nat)
    requires Clean(acts) && Exec(acts).Some? && run in Exec(acts).value.logins
    requires !Exec(acts).value.logins[run].phase.Reading?
    ensures LookedAt(acts, i, run, Exec(acts).value.logins[run].key)
  {
    var n := |acts| - 1;
    var w, a := Exec(acts[..n]).value, acts[n];
    if a == Read(run, CachedFor(w, KeyOf(w, a))) {
      i := n;
    } else {
      if a.run != run { OthersUnmovedBack(w, a, run); }
      i := LookupOf(acts[..n], run);
      assert acts[..n][..i] == acts[..i];
    }
  }

  lemma OthersUnmovedBack(w: World, a: Action, run: nat)
    requires Enabled(w, a) && run != a.run && run in Apply(w, a).logins
    ensures run in w.logins && Apply(w, a).logins[run] == w.logins[run]
  {
  }

  lemma {:induction false} CleanPrefix(acts: seq<Action>, j: nat)
    requires Clean(acts) && j < |acts|
    ensures Clean(acts[..j]) && Exec(acts[..j]).Some? && Enabled(Exec(acts[..j]).value, acts[j])
    ensures CleanStep(Exec(acts[..j]).value, acts[j])
  {
    var n := |acts| - 1;
    if j < n {
      CleanPrefix(acts[..n], j);
      assert acts[..n][..j] == acts[..j];
    } else {
      CleanRunsKeep(acts[..n]);
    }
  }

  lemma LossIsOvertaken(acts: seq<Action>, j: nat, key: Key)
    requires Clean(acts)
    ensures LossAt(acts, j, key) <==> exists i: nat :: Overtaken(acts, i, j, key)
  {
    if LossAt(acts, j, key) {
      CleanPrefix(acts, j);
      var i := LookupOf(acts[..j], acts[j].run);
      StoreLosesExactlyWhen(acts[..j], i, acts[j].run, key);
      assert Overtaken(acts, i, j, key);
    }
    if i :| Overtaken(acts, i, j, key) {
      CleanPrefix(acts, j);
      StoreLosesExactlyWhen(acts[..j], i, acts[j].run, key);
      SinceLookup(acts[..j], i, acts[j].run, key);
    }
  }

  /**
   * However logins that never fail interleave: when all are done, an identity has at most one live token
   * exactly if none of its logins was overtaken.
   */
  lemma OneLiveUnlessOvertaken(acts: seq<Action>, key: Key)
    requires Clean(acts) && Exec(acts).Some? && Idle(Exec(acts).value)
    ensures |LiveFor(Exec(acts).value, key)| <= 1 <==> !exists i: nat, j: nat :: Overtaken(acts, i, j, key)
  {
    OneLiveExactlyWhenNoLoss(acts, key);
    if i: nat, j: nat :| Overtaken(acts, i, j, key) {
      LossIsOvertaken(acts, j, key);
    }
    if j: nat :| LossAt(acts, j, key) {
      LossIsOvertaken(acts, j, key);
      var i: nat :| Overtaken(acts, i, j, key);
    }
  }

  // ---------- which tokens those are ----------

  /** Some lookup was given this token. */
  ghost predicate Found(acts: seq<Action>, t: Token)
  {
    exists i :: 0 <= i < |acts| && acts[i].Read? && acts[i].got == Some(t)
  }

  lemma FoundSnoc(acts: seq<Action>, t: Token)
    requires acts != []
    ensures var n := |acts| - 1; Found(acts, t) <==> Found(acts[..n], t) || (acts[n].Read? && acts[n].got == Some(t))
  {
    var n := |acts| - 1;
    assert forall i :: 0 <= i < n ==> acts[..n][i] == acts[i];
  }

  lemma {:induction false} FoundAreDropped(acts: seq<Action>, t: Token)
    requires Clean(acts) && Exec(acts).Some?
    ensures var w := Exec(acts).value;
      && (Found(acts, t) ==> t in w.home)
      && (t in w.home ==> (Found(acts, t) <==> t !in w.live || Dropped(w, t)))
  {
    if acts != [] {
      var n := |acts| - 1;
      var w, a := Exec(acts[..n]).value, acts[n];
      CleanRunsKeep(acts[..n]);
      FoundAreDropped(acts[..n], t);
      FoundSnoc(acts, t);
      LiveFrom(w, a, t);
      DroppedStep(w, a, t);
      HomeStep(w, a, t);
      if Dropped(w, t) {
        var q :| DroppedBy(w, q, t);
        DroppedWasMade(w, q, t);
      }
    }
  }

  lemma HomeStep(w: World, a: Action, t: Token)
    requires Inv(w) && Enabled(w, a) && CleanStep(w, a)
    ensures t in Apply(w, a).home <==> t in w.home || (a.Ask? && a.issue.token == t)
    ensures a.Read? && a.got == Some(t) ==> t in w.home
  {
  }

  /** When all are done, the live tokens of an identity are those made for it that no lookup found. */
  lemma LiveExactlyUnfound(acts: seq<Action>, key: Key, t: Token)
    requires Clean(acts) && Exec(acts).Some? && Idle(Exec(acts).value)
    ensures t in LiveFor(Exec(acts).value, key) <==> MadeFor(Exec(acts).value, t, key) && !Found(acts, t)
  {
    FoundAreDropped(acts, t);
  }
}
