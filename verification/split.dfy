/** Reconciles of a global service split into their store half and their local half, which is how the
    runners can really interleave: the store has no lock (main.go, global_runner.go). */
module SplitReconciles {
  import opened Wrappers
  import opened Naming
  import opened Lists
  import opened GlobalStore
  import opened Aggregation
  import C = Controller

  /** Until its local half runs, the store half of a reconcile looks like a reconcile whose lookup
      and write fail. */
  const STORE_HALF := C.Faults(false, true, C.Refused)

  /** What may run between the halves: anything but the same worker on the same key. */
  ghost predicate LeavesAlone(at: At, run: seq<Action>) {
    forall a :: a in run && a.Reconcile? ==> a.at != at
  }

  predicate Marks(at: At, run: seq<Action>) {
    exists a :: a in run && a.Change? && a.at == at
  }

  /** Fewer keys pending: the queue is done with the key unless that was marked again in the meantime. */
  function DoneWith(sys: System, at: At, marked: bool): set<At> {
    if marked then sys.pending else sys.pending - {at}
  }

  // --- A retracting reconcile: the service is gone and no cluster is left -----------------------------------

  /** The local half of it: the delete request goes out. */
  function RetractHalf(sys: System, at: At, marked: bool): System {
    sys.(local := sys.local - {GlobalName(at.key)}, pending := DoneWith(sys, at, marked))
  }

  lemma RetractHalvesMakeAReconcile(cfg: Config, sys: System, at: At)
    requires WellFormed(sys.store) && at in sys.seen && at !in sys.cache
    requires GlobalName(at.key) !in Apply(sys.store, Delete(at.key, at.cluster))
    ensures Enabled(cfg, sys, Reconcile(at, STORE_HALF)) && Enabled(cfg, sys, Reconcile(at, NO_FAULTS))
    ensures RetractHalf(Next(cfg, sys, Reconcile(at, STORE_HALF)), at, false) ==
              Next(cfg, sys, Reconcile(at, NO_FAULTS))
  {
  }

  lemma RetractHalfAgreement(cfg: Config, sys: System, at: At, marked: bool)
    requires CollisionFree(cfg.keys) && Inv(cfg, sys) && at in sys.seen
    ensures var after := RetractHalf(sys, at, marked);
            LocalInv(after) <==> PendingSomewhere(after, at.key) || LocalAgrees(after.store, after.local, at.key)
  {
    var after := RetractHalf(sys, at, marked);
    forall o | o in sys.seen && o.key != at.key
      ensures PendingSomewhere(after, o.key) || LocalAgrees(after.store, after.local, o.key)
    {
      CollisionFreeNames(cfg.keys, "", at.key, o.key);
      if c :| At(c, o.key) in sys.pending {
        assert At(c, o.key) in after.pending;
      }
    }
  }

  /** The local half keeps every entry covered exactly when its own is still absent, and keeps the
      invariant exactly when it is absent or the key is still pending in some cluster. */
  lemma RetractHalfExact(cfg: Config, sys: System, at: At, marked: bool)
    requires CollisionFree(cfg.keys) && Inv(cfg, sys) && at in sys.pending
    requires marked || (at !in sys.cache && !IsMember(sys.store, at.key, at.cluster))
    ensures var after, n := RetractHalf(sys, at, marked), GlobalName(at.key);
            && (Inv(cfg, after) <==> n !in sys.store || PendingSomewhere(after, at.key))
            && (Covered(sys) ==> (Covered(after) <==> n !in sys.store))
  {
    RetractHalfAgreement(cfg, sys, at, marked);
  }

  lemma {:induction false} BetweenRetractHalves(cfg: Config, sys: System, at: At, run: seq<Action>)
    requires CollisionFree(cfg.keys) && Inv(cfg, sys) && at in sys.pending
    requires ValidRun(cfg, sys, run) && LeavesAlone(at, run)
    ensures Inv(cfg, Final(cfg, sys, run)) && at in Final(cfg, sys, run).pending
    ensures !Marks(at, run) && at !in sys.cache ==> at !in Final(cfg, sys, run).cache
    ensures !IsMember(sys.store, at.key, at.cluster) ==> !IsMember(Final(cfg, sys, run).store, at.key, at.cluster)
    decreases |run|
  {
    if run != [] {
      var a := run[0];
      assert a in run && forall o :: o in run[1..] ==> o in run;
      InvStep(cfg, sys, a);
      if a.Reconcile? {
        CollisionFreeNames(cfg.keys, "", a.at.key, at.key);
        MembershipEffect(cfg.selector, sys.store, sys.local, a.at.cluster, a.at.key, Cached(sys, a.at), a.faults,
                         at.key, at.cluster);
      }
      BetweenRetractHalves(cfg, Next(cfg, sys, a), at, run[1..]);
    }
  }

  /** A reconcile that is split in two, whatever runs in between: the invariant holds afterwards exactly
      when the entry is still absent by then or the key is pending in some cluster. */
  lemma SplitRetractExact(cfg: Config, sys: System, at: At, run: seq<Action>)
    requires CollisionFree(cfg.keys) && Inv(cfg, sys) && at in sys.seen && at !in sys.cache
    requires GlobalName(at.key) !in Apply(sys.store, Delete(at.key, at.cluster))
    requires Enabled(cfg, sys, Reconcile(at, STORE_HALF))
    requires ValidRun(cfg, Next(cfg, sys, Reconcile(at, STORE_HALF)), run) && LeavesAlone(at, run)
    ensures var before := Final(cfg, Next(cfg, sys, Reconcile(at, STORE_HALF)), run);
            var after := RetractHalf(before, at, Marks(at, run));
            && (Inv(cfg, after) <==> GlobalName(at.key) !in before.store || PendingSomewhere(after, at.key))
            && (Covered(before) ==> (Covered(after) <==> GlobalName(at.key) !in before.store))
  {
    var half := Next(cfg, sys, Reconcile(at, STORE_HALF));
    InvStep(cfg, sys, Reconcile(at, STORE_HALF));
    BetweenRetractHalves(cfg, half, at, run);
    RetractHalfExact(cfg, Final(cfg, half, run), at, Marks(at, run));
  }

  function Handover(svc: RemoteService, a: string, b: string): seq<Action> {
    [Change(At(a, svc.key), Some(svc)), Reconcile(At(a, svc.key), NO_FAULTS),
     Change(At(a, svc.key), None), Change(At(b, svc.key), Some(svc))]
  }

  /** One cluster's service is published and goes, another cluster's comes; then the store half of the
      first, all of the second. */
  function InterleavedRun(svc: RemoteService, a: string, b: string): seq<Action> {
    Handover(svc, a, b) + [Reconcile(At(a, svc.key), STORE_HALF), Reconcile(At(b, svc.key), NO_FAULTS)]
  }

  lemma {:induction false} Concatenate(cfg: Config, sys: System, run1: seq<Action>, run2: seq<Action>)
    requires ValidRun(cfg, sys, run1) && ValidRun(cfg, Final(cfg, sys, run1), run2)
    ensures ValidRun(cfg, sys, run1 + run2) && Final(cfg, sys, run1 + run2) == Final(cfg, Final(cfg, sys, run1), run2)
    decreases |run1|
  {
    if run1 == [] {
      assert run1 + run2 == run2;
    } else {
      Concatenate(cfg, Next(cfg, sys, run1[0]), run1[1..], run2);
      Prepend(cfg, sys, run1[0], run1[1..] + run2);
      assert run1 + run2 == [run1[0]] + (run1[1..] + run2);
    }
  }

  lemma HandedOver(cfg: Config, start: System, svc: RemoteService, a: string, b: string) returns (end: System)
    requires Initial(start) && svc.key in cfg.keys && {a, b} <= cfg.clusters && a != b
    ensures ValidRun(cfg, start, Handover(svc, a, b)) && end == Final(cfg, start, Handover(svc, a, b))
    ensures end.pending == {At(a, svc.key), At(b, svc.key)} <= end.seen && end.cache == map[At(b, svc.key) := svc]
    ensures GlobalName(svc.key) in end.store && end.store[GlobalName(svc.key)].clusters == [a]
    ensures end.store[GlobalName(svc.key)].headless == (svc.clusterIP == "None")
  {
    var k := svc.key;
    var s1 := Next(cfg, start, Change(At(a, k), Some(svc)));
    var s2 := Next(cfg, s1, Reconcile(At(a, k), NO_FAULTS));
    assert s2.store[GlobalName(k)].clusters == [a];
    var s3 := Next(cfg, s2, Change(At(a, k), None));
    end := Next(cfg, s3, Change(At(b, k), Some(svc)));
    var run := [Change(At(b, k), Some(svc))];
    Prepend(cfg, s3, run[0], []);
    Prepend(cfg, s2, Change(At(a, k), None), run);
    Prepend(cfg, s1, Reconcile(At(a, k), NO_FAULTS), [Change(At(a, k), None)] + run);
    Prepend(cfg, start, Change(At(a, k), Some(svc)),
            [Reconcile(At(a, k), NO_FAULTS)] + ([Change(At(a, k), None)] + run));
    assert Handover(svc, a, b) ==
             [Change(At(a, k), Some(svc))] + ([Reconcile(At(a, k), NO_FAULTS)] + ([Change(At(a, k), None)] + run));
  }

  /** One runner empties the entry, another one adds its cluster and publishes the service again, and
      only then the first one's delete request goes out: every call succeeded, nothing is pending,
      the entry is there, and its local service is not. */
  lemma InterleavedDeleteLosesService(cfg: Config, start: System, svc: RemoteService, a: string, b: string)
    requires CollisionFree(cfg.keys) && Initial(start) && svc.key in cfg.keys && {a, b} <= cfg.clusters && a != b
    ensures ValidRun(cfg, start, InterleavedRun(svc, a, b))
    ensures var torn, n := RetractHalf(Final(cfg, start, InterleavedRun(svc, a, b)), At(a, svc.key),
                                       false), GlobalName(svc.key);
            torn.pending == {} && n in torn.store && n !in torn.local && !Inv(cfg, torn)
  {
    var ata, atb := At(a, svc.key), At(b, svc.key);
    var s := HandedOver(cfg, start, svc, a, b);
    assert SwapRemoved([a], 0) == [];
    var half := Next(cfg, s, Reconcile(ata, STORE_HALF));
    var torn := RetractHalf(Next(cfg, half, Reconcile(atb, NO_FAULTS)), ata, false);
    assert atb in torn.seen && torn.pending == {} && !LocalAgrees(torn.store, torn.local, atb.key);
    Prepend(cfg, half, Reconcile(atb, NO_FAULTS), []);
    Prepend(cfg, s, Reconcile(ata, STORE_HALF), [Reconcile(atb, NO_FAULTS)]);
    assert [Reconcile(ata, STORE_HALF), Reconcile(atb, NO_FAULTS)] ==
             [Reconcile(ata, STORE_HALF)] + [Reconcile(atb, NO_FAULTS)];
    Concatenate(cfg, start, Handover(svc, a, b), [Reconcile(ata, STORE_HALF), Reconcile(atb, NO_FAULTS)]);
  }

  // --- A publishing reconcile: the cluster has the service and the store took it ---------------------------------

  /** The local half of it: the entry that the store half made or changed is created or updated. */
  function PublishHalf(sys: System, at: At, svc: RemoteService, marked: bool): System
    requires GlobalName(at.key) in sys.store
  {
    sys.(local := Publish(sys.store, sys.local, GlobalName(at.key), Some(svc), NO_FAULTS).local,
         pending := DoneWith(sys, at, marked))
  }

  lemma PublishHalvesMakeAReconcile(cfg: Config, sys: System, at: At)
    requires CacheWellFormed(cfg, sys) && at in sys.cache
    requires Succeeds(sys.store, CallOf(cfg.selector, at.cluster, at.key, Cached(sys, at)))
    ensures Enabled(cfg, sys, Reconcile(at, STORE_HALF)) && Enabled(cfg, sys, Reconcile(at, NO_FAULTS))
    ensures var half := Next(cfg, sys, Reconcile(at, STORE_HALF));
            && GlobalName(at.key) in half.store
            && PublishHalf(half, at, sys.cache[at], false) == Next(cfg, sys, Reconcile(at, NO_FAULTS))
  {
  }

  ghost predicate OtherPending(sys: System, at: At) {
    exists c :: c != at.cluster && At(c, at.key) in sys.pending
  }

  /** What holds between the halves: the entry stays, and should the local service still be missing, its
      ports are those the local half is going to write, unless another cluster has yet to publish. */
  ghost predicate HalfPublished(sys: System, at: At, svc: RemoteService) {
    var n := GlobalName(at.key);
    && at in sys.pending && IsMember(sys.store, at.key, at.cluster)
    && (n in sys.local || sys.store[n].ports == svc.ports || OtherPending(sys, at))
  }

  lemma OtherPublishes(selector: map<string, string>, store: Contents, local: Locals, cluster: string, k: Key,
                       remote: Option<RemoteService>, faults: C.Faults, c: string)
    requires WellFormed(store) && (remote.Some? ==> remote.value.key == k) && IsMember(store, k, c) && c != cluster
    ensures var effect, n := ReconcileGlobal(selector, store, local, cluster, k, remote, faults), GlobalName(k);
            && (effect.verdict.Reconciled? ==> n in effect.local)
            && (n in local ==> n in effect.local)
  {
    CrashesExactly(selector, store, local, cluster, k, remote, faults);
    ApplyMembership(store, CallOf(selector, cluster, k, remote), k, c);
  }

  lemma HalfPublishedReconcile(cfg: Config, sys: System, at: At, svc: RemoteService, o: At, faults: C.Faults)
    requires CollisionFree(cfg.keys) && Inv(cfg, sys) && HalfPublished(sys, at, svc)
    requires Enabled(cfg, sys, Reconcile(o, faults)) && o != at
    ensures HalfPublished(Next(cfg, sys, Reconcile(o, faults)), at, svc)
  {
    var after, remote := Next(cfg, sys, Reconcile(o, faults)), Cached(sys, o);
    CollisionFreeNames(cfg.keys, "", o.key, at.key);
    MembershipEffect(cfg.selector, sys.store, sys.local, o.cluster, o.key, remote, faults, at.key, at.cluster);
    if o.key == at.key {
      OtherPublishes(cfg.selector, sys.store, sys.local, o.cluster, o.key, remote, faults, at.cluster);
      assert o in after.pending ==> At(o.cluster, at.key) in after.pending;
    } else {
      StoreEffect(cfg.selector, sys.store, sys.local, o.cluster, o.key, remote, faults);
      if c :| c != at.cluster && At(c, at.key) in sys.pending {
        assert At(c, at.key) in after.pending;
      }
    }
  }

  lemma HalfPublishedStep(cfg: Config, sys: System, at: At, svc: RemoteService, a: Action)
    requires CollisionFree(cfg.keys) && Inv(cfg, sys) && HalfPublished(sys, at, svc)
    requires Enabled(cfg, sys, a) && (a.Reconcile? ==> a.at != at)
    ensures HalfPublished(Next(cfg, sys, a), at, svc)
  {
    match a
    case Reconcile(o, faults) => HalfPublishedReconcile(cfg, sys, at, svc, o, faults);
    case Outside(n, _) =>
      NameShapes(GLOBAL_PREFIX, at.key);
      MirrorNameInSpace(GLOBAL_PREFIX, at.key);
    case Change(_, _) =>
      if c :| c != at.cluster && At(c, at.key) in sys.pending {
        assert At(c, at.key) in Next(cfg, sys, a).pending;
      }
  }

  lemma {:induction false} BetweenPublishHalves(cfg: Config, sys: System, at: At, svc: RemoteService, run: seq<Action>)
    requires CollisionFree(cfg.keys) && Inv(cfg, sys) && HalfPublished(sys, at, svc)
    requires ValidRun(cfg, sys, run) && LeavesAlone(at, run)
    ensures Inv(cfg, Final(cfg, sys, run)) && HalfPublished(Final(cfg, sys, run), at, svc)
    ensures !Marks(at, run) && at in sys.cache ==> at in Final(cfg, sys, run).cache
    decreases |run|
  {
    if run != [] {
      assert run[0] in run && forall o :: o in run[1..] ==> o in run;
      InvStep(cfg, sys, run[0]);
      HalfPublishedStep(cfg, sys, at, svc, run[0]);
      BetweenPublishHalves(cfg, Next(cfg, sys, run[0]), at, svc, run[1..]);
    }
  }

  lemma PublishAgreesHalf(store: Contents, local: Locals, k: Key, svc: RemoteService)
    requires GlobalName(k) in store && (GlobalName(k) in local || store[GlobalName(k)].ports == svc.ports)
    ensures LocalAgrees(store, Publish(store, local, GlobalName(k), Some(svc), NO_FAULTS).local, k)
  {
  }

  lemma PublishHalfKeepsInv(cfg: Config, sys: System, at: At, svc: RemoteService, marked: bool)
    requires CollisionFree(cfg.keys) && Inv(cfg, sys) && HalfPublished(sys, at, svc) && (marked || at in sys.cache)
    ensures Inv(cfg, PublishHalf(sys, at, svc, marked))
  {
    var after, n := PublishHalf(sys, at, svc, marked), GlobalName(at.key);
    forall o | o in sys.seen ensures PendingSomewhere(after, o.key) || LocalAgrees(after.store, after.local, o.key) {
      CollisionFreeNames(cfg.keys, "", at.key, o.key);
      if o.key != at.key {
        if c :| At(c, o.key) in sys.pending {
          assert At(c, o.key) in after.pending;
        }
      } else if c :| c != at.cluster && At(c, at.key) in sys.pending {
        assert At(c, o.key) in after.pending;
      } else {
        PublishAgreesHalf(sys.store, sys.local, at.key, svc);
      }
    }
  }

  lemma HalfMade(cfg: Config, sys: System, at: At)
    requires Inv(cfg, sys) && at in sys.cache && Enabled(cfg, sys, Reconcile(at, STORE_HALF))
    requires Succeeds(sys.store, CallOf(cfg.selector, at.cluster, at.key, Cached(sys, at)))
    ensures HalfPublished(Next(cfg, sys, Reconcile(at, STORE_HALF)), at, sys.cache[at])
  {
    ApplyMembership(sys.store, CallOf(cfg.selector, at.cluster, at.key, Cached(sys, at)), at.key, at.cluster);
  }

  /** A publishing reconcile that is split in two keeps the invariant, whatever runs in between. */
  lemma SplitPublishKeepsInvariant(cfg: Config, sys: System, at: At, run: seq<Action>)
    requires CollisionFree(cfg.keys) && Inv(cfg, sys) && at in sys.cache
    requires Succeeds(sys.store, CallOf(cfg.selector, at.cluster, at.key, Cached(sys, at)))
    requires Enabled(cfg, sys, Reconcile(at, STORE_HALF))
    requires ValidRun(cfg, Next(cfg, sys, Reconcile(at, STORE_HALF)), run) && LeavesAlone(at, run)
    ensures var before := Final(cfg, Next(cfg, sys, Reconcile(at, STORE_HALF)), run);
            GlobalName(at.key) in before.store && Inv(cfg, PublishHalf(before, at, sys.cache[at], Marks(at, run)))
  {
    var half := Next(cfg, sys, Reconcile(at, STORE_HALF));
    InvStep(cfg, sys, Reconcile(at, STORE_HALF));
    HalfMade(cfg, sys, at);
    BetweenPublishHalves(cfg, half, at, sys.cache[at], run);
    PublishHalfKeepsInv(cfg, Final(cfg, half, run), at, sys.cache[at], Marks(at, run));
  }

  // --- What can crash between the halves of it --------------------------------------------------------------------

  ghost predicate CoveredBut(sys: System, n: string) {
    forall x :: x in sys.store && x != n ==> x in sys.local
  }

  /** No lookup or create of a missing local service fails for any other key. */
  ghost predicate SteadyElsewhere(cfg: Config, sys: System, run: seq<Action>, k: Key)
    requires ValidRun(cfg, sys, run)
    decreases |run|
  {
    run != [] ==>
      && (Shaky(sys, run[0]) ==> run[0].at.key == k)
      && SteadyElsewhere(cfg, Next(cfg, sys, run[0]), run[1..], k)
  }

  lemma CoveredButStep(cfg: Config, sys: System, a: Action, k: Key)
    requires CollisionFree(cfg.keys) && Inv(cfg, sys) && CoveredBut(sys, GlobalName(k)) && Enabled(cfg, sys, a)
    requires Shaky(sys, a) ==> a.at.key == k
    ensures CoveredBut(Next(cfg, sys, a), GlobalName(k))
  {
    if a.Reconcile? {
      var at, faults := a.at, a.faults;
      StoreEffect(cfg.selector, sys.store, sys.local, at.cluster, at.key, Cached(sys, at), faults);
      if GlobalName(at.key) != GlobalName(k) {
        CoveredReconcile(cfg.selector, sys.store, sys.local, at.cluster, at.key, Cached(sys, at), faults);
      }
    } else if a.Outside? && a.name in sys.store {
      NameShapes(GLOBAL_PREFIX, sys.store[a.name].key);
      MirrorNameInSpace(GLOBAL_PREFIX, sys.store[a.name].key);
    }
  }

  lemma {:induction false} CoveredButRun(cfg: Config, sys: System, run: seq<Action>, k: Key)
    requires CollisionFree(cfg.keys) && Inv(cfg, sys) && CoveredBut(sys, GlobalName(k)) && ValidRun(cfg, sys, run)
    requires SteadyElsewhere(cfg, sys, run, k)
    ensures CoveredBut(Final(cfg, sys, run), GlobalName(k))
    decreases |run|
  {
    if run != [] {
      CoveredButStep(cfg, sys, run[0], k);
      InvStep(cfg, sys, run[0]);
      CoveredButRun(cfg, Next(cfg, sys, run[0]), run[1..], k);
    }
  }

  /** Between the halves of a publishing reconcile, with no failure for any other key, the reconciles
      that can crash are exactly those of clusters that lost the same service, and only while the local
      service is still missing. */
  lemma SplitPublishCrashesExactly(cfg: Config, sys: System, at: At, run: seq<Action>, o: At, faults: C.Faults)
    requires CollisionFree(cfg.keys) && Inv(cfg, sys) && Covered(sys) && at in sys.cache
    requires Succeeds(sys.store, CallOf(cfg.selector, at.cluster, at.key, Cached(sys, at)))
    requires Enabled(cfg, sys, Reconcile(at, STORE_HALF))
    requires var half := Next(cfg, sys, Reconcile(at, STORE_HALF));
             ValidRun(cfg, half, run) && LeavesAlone(at, run) && SteadyElsewhere(cfg, half, run, at.key)
    requires var before := Final(cfg, Next(cfg, sys, Reconcile(at, STORE_HALF)), run); o in before.seen && o != at
    ensures var before := Final(cfg, Next(cfg, sys, Reconcile(at, STORE_HALF)), run);
            EffectOf(cfg, before, o, faults).verdict.Crashed? <==>
              && !faults.read && !faults.look
              && o !in before.cache && o.key == at.key && GlobalName(at.key) !in before.local
  {
    var half := Next(cfg, sys, Reconcile(at, STORE_HALF));
    var before := Final(cfg, half, run);
    InvStep(cfg, sys, Reconcile(at, STORE_HALF));
    HalfMade(cfg, sys, at);
    BetweenPublishHalves(cfg, half, at, sys.cache[at], run);
    CoveredButStep(cfg, sys, Reconcile(at, STORE_HALF), at.key);
    CoveredButRun(cfg, half, run, at.key);
    CollisionFreeNames(cfg.keys, "", at.key, o.key);
    CrashesExactly(cfg.selector, before.store, before.local, o.cluster, o.key, Cached(before, o), faults);
  }

  lemma Extend(cfg: Config, sys: System, run: seq<Action>, a: Action)
    requires ValidRun(cfg, sys, run) && Enabled(cfg, Final(cfg, sys, run), a)
    ensures ValidRun(cfg, sys, run + [a]) && Final(cfg, sys, run + [a]) == Next(cfg, Final(cfg, sys, run), a)
  {
    var end := Final(cfg, sys, run);
    Prepend(cfg, end, a, []);
    assert [a] + [] == [a];
    Concatenate(cfg, sys, run, [a]);
  }

  /** No failed call is needed for the nil dereference: one cluster's service came and went, another
      cluster's entry is made but its local service not yet created, and the first runner crashes. */
  lemma CrashWithoutFailure(cfg: Config, start: System, svc: RemoteService, a: string, b: string)
    requires Initial(start) && svc.key in cfg.keys && {a, b} <= cfg.clusters && a != b
             && GlobalName(svc.key) !in start.local
    ensures var run := Blip(a, svc) + [Change(At(b, svc.key), Some(svc)), Reconcile(At(b, svc.key), STORE_HALF)];
            && ValidRun(cfg, start, run)
            && At(a, svc.key) in Final(cfg, start, run).pending
            && EffectOf(cfg, Final(cfg, start, run), At(a, svc.key), NO_FAULTS).verdict.Crashed?
  {
    var ata, atb := At(a, svc.key), At(b, svc.key);
    Extend(cfg, start, [], Change(ata, Some(svc)));
    Extend(cfg, start, [Change(ata, Some(svc))], Change(ata, None));
    assert [] + [Change(ata, Some(svc))] + [Change(ata, None)] == Blip(a, svc);
    Extend(cfg, start, Blip(a, svc), Change(atb, Some(svc)));
    var s := Final(cfg, start, Blip(a, svc) + [Change(atb, Some(svc))]);
    Extend(cfg, start, Blip(a, svc) + [Change(atb, Some(svc))], Reconcile(atb, STORE_HALF));
    assert Blip(a, svc) + [Change(atb, Some(svc))] + [Reconcile(atb, STORE_HALF)] ==
           Blip(a, svc) + [Change(atb, Some(svc)), Reconcile(atb, STORE_HALF)];
    assert Next(cfg, s, Reconcile(atb, STORE_HALF)).store[GlobalName(svc.key)].clusters == [b];
  }

  // --- A withdrawing reconcile: the service is gone and other clusters are left --------------------------------

  /** Its local half looks the local service up to update it from the entry it was handed, which may have
      left the store by then; it crashes if the lookup finds nothing. */
  predicate WithdrawHalfCrashes(sys: System, at: At) {
    GlobalName(at.key) !in sys.local
  }

  /** With no failure in between, a withdrawing reconcile that is split in two crashes only when the entry
      was retracted in between. */
  lemma SplitWithdrawCrashes(cfg: Config, sys: System, at: At, run: seq<Action>)
    requires CollisionFree(cfg.keys) && Inv(cfg, sys) && Covered(sys) && at in sys.seen && at !in sys.cache
    requires GlobalName(at.key) in Apply(sys.store, Delete(at.key, at.cluster))
    requires Enabled(cfg, sys, Reconcile(at, STORE_HALF))
    requires var half := Next(cfg, sys, Reconcile(at, STORE_HALF)); ValidRun(cfg, half, run) && Steady(cfg, half, run)
    ensures var before := Final(cfg, Next(cfg, sys, Reconcile(at, STORE_HALF)), run);
            WithdrawHalfCrashes(before, at) ==> GlobalName(at.key) !in before.store
  {
    var half := Next(cfg, sys, Reconcile(at, STORE_HALF));
    InvStep(cfg, sys, Reconcile(at, STORE_HALF));
    CoveredStep(cfg, sys, Reconcile(at, STORE_HALF));
    CoveredRun(cfg, half, run);
  }

  /** Two clusters have the service and both lose it: between the halves of the first withdrawal comes all
      of the second one. */
  function LastTwoLeave(svc: RemoteService, a: string, b: string): seq<Action> {
    Handover(svc, a, b) +
    [Reconcile(At(b, svc.key), NO_FAULTS), Change(At(b, svc.key), None),
     Reconcile(At(a, svc.key), STORE_HALF), Reconcile(At(b, svc.key), NO_FAULTS)]
  }

  lemma BothListed(cfg: Config, start: System, svc: RemoteService, a: string, b: string) returns (run: seq<Action>)
    requires Initial(start) && svc.key in cfg.keys && {a, b} <= cfg.clusters && a != b
    ensures run == Handover(svc, a, b) + [Reconcile(At(b, svc.key), NO_FAULTS), Change(At(b, svc.key), None)]
    ensures ValidRun(cfg, start, run)
    ensures var end, n := Final(cfg, start, run), GlobalName(svc.key);
            && {At(a, svc.key), At(b, svc.key)} <= end.seen && end.cache == map[]
            && n in end.store && end.store[n].clusters == [a, b]
  {
    var atb, n := At(b, svc.key), GlobalName(svc.key);
    run := Handover(svc, a, b);
    var s := HandedOver(cfg, start, svc, a, b);
    Extend(cfg, start, run, Reconcile(atb, NO_FAULTS));
    run := run + [Reconcile(atb, NO_FAULTS)];
    assert Final(cfg, start, run).store[n].clusters == [a, b];
    Extend(cfg, start, run, Change(atb, None));
    run := run + [Change(atb, None)];
  }

  /** That does happen, and again no call failed. */
  lemma WithdrawCrashesWithoutFailure(cfg: Config, start: System, svc: RemoteService, a: string, b: string)
    requires Initial(start) && svc.key in cfg.keys && {a, b} <= cfg.clusters && a != b
    ensures ValidRun(cfg, start, LastTwoLeave(svc, a, b))
    ensures WithdrawHalfCrashes(Final(cfg, start, LastTwoLeave(svc, a, b)), At(a, svc.key))
  {
    var ata, atb := At(a, svc.key), At(b, svc.key);
    var run := BothListed(cfg, start, svc, a, b);
    assert SwapRemoved([a, b], 0) == [b] && SwapRemoved([b], 0) == [];
    Extend(cfg, start, run, Reconcile(ata, STORE_HALF));
    run := run + [Reconcile(ata, STORE_HALF)];
    assert Final(cfg, start, run).store[GlobalName(svc.key)].clusters == [b];
    Extend(cfg, start, run, Reconcile(atb, NO_FAULTS));
    run := run + [Reconcile(atb, NO_FAULTS)];
    assert run == LastTwoLeave(svc, a, b);
  }
}
