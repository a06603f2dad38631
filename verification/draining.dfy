/** When the global runners can get through their pending keys, although a service of another kind than
    its entry is an error (globalservice.go) and a missing local service can crash them
    (global_runner.go). */
module Draining {
  import opened Wrappers
  import opened Naming
  import opened GlobalStore
  import opened Aggregation
  import C = Controller
  import HeadlessFlags

  // --- What holds of keys that are not pending ----------------------------------------------------------

  /** A key that is cached and not pending has an entry of its kind and a local service. */
  ghost predicate HeldInv(sys: System) {
    forall at :: at in sys.cache && at !in sys.pending ==>
      var n := GlobalName(at.key);
      n in sys.store && (sys.store[n].headless <==> sys.cache[at].clusterIP == "None") && n in sys.local
  }

  lemma ReconcileHolds(selector: map<string, string>, store: Contents, local: Locals, cluster: string, k: Key,
                       remote: Option<RemoteService>, faults: C.Faults)
    requires remote.Some? ==> remote.value.key == k
    ensures var effect, n := ReconcileGlobal(selector, store, local, cluster, k, remote, faults), GlobalName(k);
            && (n in local && n in effect.store ==> n in effect.local)
            && (n in store && n in effect.store ==> effect.store[n].headless == store[n].headless)
            && (effect.verdict.Reconciled? && remote.Some? ==>
                  n in effect.store && n in effect.local
                      && (effect.store[n].headless <==> remote.value.clusterIP == "None"))
  {
  }

  /** An entry stays, and stays of its kind, as long as one listed cluster has the service. */
  lemma ListedStays(cfg: Config, sys: System, a: Action, o: At)
    requires CollisionFree(cfg.keys) && Inv(cfg, sys) && Enabled(cfg, sys, a)
    requires o in sys.cache && IsMember(sys.store, o.key, o.cluster)
    ensures var after, n := Next(cfg, sys, a), GlobalName(o.key);
            IsMember(after.store, o.key, o.cluster) && after.store[n].headless == sys.store[n].headless
  {
    if a.Reconcile? {
      var at, faults := a.at, a.faults;
      CollisionFreeNames(cfg.keys, "", at.key, o.key);
      ReconcileHolds(cfg.selector, sys.store, sys.local, at.cluster, at.key, Cached(sys, at), faults);
      StoreEffect(cfg.selector, sys.store, sys.local, at.cluster, at.key, Cached(sys, at), faults);
      if at == o {
        ApplyMembership(sys.store, CallOf(cfg.selector, at.cluster, at.key, Cached(sys, at)), o.key, o.cluster);
      } else {
        MembershipEffect(cfg.selector, sys.store, sys.local, at.cluster, at.key, Cached(sys, at), faults, o.key,
                         o.cluster);
      }
    }
  }

  lemma HeldReconcile(cfg: Config, sys: System, at: At, faults: C.Faults, o: At)
    requires CollisionFree(cfg.keys) && Inv(cfg, sys) && HeldInv(sys) && Enabled(cfg, sys, Reconcile(at, faults))
    requires o in sys.cache && o !in Next(cfg, sys, Reconcile(at, faults)).pending
    ensures var after, n := Next(cfg, sys, Reconcile(at, faults)), GlobalName(o.key);
            n in after.store && (after.store[n].headless <==> after.cache[o].clusterIP == "None") && n in after.local
  {
    CollisionFreeNames(cfg.keys, "", at.key, o.key);
    ReconcileHolds(cfg.selector, sys.store, sys.local, at.cluster, at.key, Cached(sys, at), faults);
    StoreEffect(cfg.selector, sys.store, sys.local, at.cluster, at.key, Cached(sys, at), faults);
    if o != at {
      ListedStays(cfg, sys, Reconcile(at, faults), o);
    }
  }

  lemma HeldStep(cfg: Config, sys: System, a: Action)
    requires CollisionFree(cfg.keys) && Inv(cfg, sys) && HeldInv(sys) && Enabled(cfg, sys, a)
    ensures HeldInv(Next(cfg, sys, a))
  {
    var after := Next(cfg, sys, a);
    match a
    case Reconcile(at, faults) =>
      forall o | o in after.cache && o !in after.pending
        ensures var n := GlobalName(o.key);
                n in after.store && (after.store[n].headless <==> after.cache[o].clusterIP == "None")
                    && n in after.local
      {
        HeldReconcile(cfg, sys, at, faults, o);
      }
    case Outside(n, _) =>
      forall k ensures GlobalName(k) != n {
        NameShapes(GLOBAL_PREFIX, k);
        MirrorNameInSpace(GLOBAL_PREFIX, k);
      }
    case Change(_, _) =>
  }

  lemma {:induction false} HeldRun(cfg: Config, sys: System, run: seq<Action>)
    requires CollisionFree(cfg.keys) && Inv(cfg, sys) && HeldInv(sys) && ValidRun(cfg, sys, run)
    ensures Inv(cfg, Final(cfg, sys, run)) && HeldInv(Final(cfg, sys, run))
    decreases |run|
  {
    if run != [] {
      InvStep(cfg, sys, run[0]);
      HeldStep(cfg, sys, run[0]);
      HeldRun(cfg, Next(cfg, sys, run[0]), run[1..]);
    }
  }

  /** Without faults a reconcile succeeds exactly when its cluster has the service in the kind of the entry,
      if there is one; or does not have it, and finds the local service or no other cluster listed. */
  lemma FaultFreeSucceedsExactly(cfg: Config, sys: System, at: At)
    requires Inv(cfg, sys) && at in sys.seen
    ensures var n := GlobalName(at.key);
            EffectOf(cfg, sys, at, NO_FAULTS).verdict.Reconciled? <==>
              if at in sys.cache then n in sys.store ==> (sys.store[n].headless <==> sys.cache[at].clusterIP == "None")
              else n in sys.local || forall c :: c != at.cluster ==> !IsMember(sys.store, at.key, c)
  {
    CrashesExactly(cfg.selector, sys.store, sys.local, at.cluster, at.key, Cached(sys, at), NO_FAULTS);
  }

  ghost predicate KeepsDefinition(at: At, run: seq<Action>) {
    forall a :: a in run && a.Change? ==> a.at != at
  }

  /** A listed cluster whose service has changed its kind. */
  predicate Stuck(sys: System, at: At) {
    && at in sys.cache && IsMember(sys.store, at.key, at.cluster)
    && (sys.store[GlobalName(at.key)].headless <==> sys.cache[at].clusterIP != "None")
  }

  lemma {:induction false} ListedStaysRun(cfg: Config, sys: System, run: seq<Action>, o: At)
    requires CollisionFree(cfg.keys) && Inv(cfg, sys) && ValidRun(cfg, sys, run) && KeepsDefinition(o, run)
    requires o in sys.cache && IsMember(sys.store, o.key, o.cluster)
    ensures var end, n := Final(cfg, sys, run), GlobalName(o.key);
            && o in end.cache && end.cache[o] == sys.cache[o]
            && IsMember(end.store, o.key, o.cluster) && end.store[n].headless == sys.store[n].headless
    decreases |run|
  {
    if run != [] {
      assert run[0] in run && forall a :: a in run[1..] ==> a in run;
      ListedStays(cfg, sys, run[0], o);
      InvStep(cfg, sys, run[0]);
      ListedStaysRun(cfg, Next(cfg, sys, run[0]), run[1..], o);
    }
  }

  /** Such a key is pending, and stays pending for ever, whatever the faults and whatever other clusters
      do, unless its own definition changes. */
  lemma StuckForEver(cfg: Config, start: System, before: seq<Action>, run: seq<Action>, at: At)
    requires CollisionFree(cfg.keys) && Initial(start) && ValidRun(cfg, start, before)
    requires Stuck(Final(cfg, start, before), at)
    requires ValidRun(cfg, Final(cfg, start, before), run) && KeepsDefinition(at, run)
    ensures var end := Final(cfg, Final(cfg, start, before), run); Stuck(end, at) && at in end.pending
  {
    HeldRun(cfg, start, before);
    var mid := Final(cfg, start, before);
    ListedStaysRun(cfg, mid, run, at);
    HeldRun(cfg, mid, run);
  }

  /** A service that is published and then changes its kind gets there. */
  lemma ChangedKindIsStuck(cfg: Config, start: System, svc: RemoteService, changed: RemoteService, a: string)
    requires Initial(start) && svc.key in cfg.keys && a in cfg.clusters && changed.key == svc.key
             && (changed.clusterIP == "None" <==> svc.clusterIP != "None")
    ensures var at := At(a, svc.key);
            var run := [Change(at, Some(svc)), Reconcile(at, NO_FAULTS), Change(at, Some(changed))];
            ValidRun(cfg, start, run) && Stuck(Final(cfg, start, run), at)
  {
    var at := At(a, svc.key);
    var s1 := Next(cfg, start, Change(at, Some(svc)));
    var s2 := Next(cfg, s1, Reconcile(at, NO_FAULTS));
    Prepend(cfg, s2, Change(at, Some(changed)), []);
    var run := [Change(at, Some(changed))];
    Prepend(cfg, s1, Reconcile(at, NO_FAULTS), run);
    Prepend(cfg, start, Change(at, Some(svc)), [Reconcile(at, NO_FAULTS)] + run);
    assert [Change(at, Some(svc)), Reconcile(at, NO_FAULTS), Change(at, Some(changed))] ==
           [Change(at, Some(svc))] + ([Reconcile(at, NO_FAULTS)] + run);
  }

  ghost predicate SameKinds(sys: System) {
    forall at, o :: at in sys.cache && o in sys.cache && at.key == o.key ==>
        (sys.cache[at].clusterIP == "None" <==> sys.cache[o].clusterIP == "None")
  }

  /** The clusters that have a service have it in one kind, which is also the kind of the entry if one of
      them is listed there. */
  ghost predicate Drainable(sys: System) {
    SameKinds(sys) && forall at :: !Stuck(sys, at)
  }

  ghost predicate NoChanges(run: seq<Action>) {
    forall a :: a in run ==> !a.Change?
  }

  ghost predicate FaultFree(run: seq<Action>) {
    forall a :: a in run && a.Reconcile? ==> a.faults == NO_FAULTS
  }

  ghost predicate CanDrain(cfg: Config, sys: System) {
    exists run :: ValidRun(cfg, sys, run) && NoChanges(run) && Final(cfg, sys, run).pending == {}
  }

  ghost predicate CanDrainFaultFree(cfg: Config, sys: System) {
    exists run :: ValidRun(cfg, sys, run) && NoChanges(run) && FaultFree(run) && Final(cfg, sys, run).pending == {}
  }

  lemma {:induction false} NoChangesKeepCache(cfg: Config, sys: System, run: seq<Action>)
    requires ValidRun(cfg, sys, run) && NoChanges(run)
    ensures Final(cfg, sys, run).cache == sys.cache
    decreases |run|
  {
    if run != [] {
      assert run[0] in run && forall a :: a in run[1..] ==> a in run;
      NoChangesKeepCache(cfg, Next(cfg, sys, run[0]), run[1..]);
    }
  }

  lemma RestIsDrainable(cfg: Config, sys: System)
    requires Inv(cfg, sys) && HeldInv(sys) && sys.pending == {}
    ensures Drainable(sys)
  {
    assert SameKinds(sys);
    assert forall at :: !Stuck(sys, at);
  }

  lemma DrainedWasDrainable(cfg: Config, sys: System, run: seq<Action>)
    requires CollisionFree(cfg.keys) && Inv(cfg, sys) && HeldInv(sys)
    requires ValidRun(cfg, sys, run) && NoChanges(run) && Final(cfg, sys, run).pending == {}
    ensures Drainable(sys)
  {
    HeldRun(cfg, sys, run);
    NoChangesKeepCache(cfg, sys, run);
    RestIsDrainable(cfg, Final(cfg, sys, run));
    forall at ensures !Stuck(sys, at) {
      if Stuck(sys, at) {
        ListedStaysRun(cfg, sys, run, at);
        assert Stuck(Final(cfg, sys, run), at);
      }
    }
  }

  lemma JoinsInItsKind(selector: map<string, string>, store: Contents, local: Locals, cluster: string,
                       svc: RemoteService, faults: C.Faults)
    requires !IsMember(store, svc.key, cluster)
    requires IsMember(ReconcileGlobal(selector, store, local, cluster, svc.key, Some(svc), faults).store, svc.key,
                      cluster)
    ensures ReconcileGlobal(selector, store, local, cluster, svc.key, Some(svc),
                            faults).store[GlobalName(svc.key)].headless == (svc.clusterIP == "None")
  {
  }

  lemma NewMember(cfg: Config, sys: System, at: At, faults: C.Faults, o: At)
    requires CollisionFree(cfg.keys) && Inv(cfg, sys) && Enabled(cfg, sys, Reconcile(at, faults)) && o in sys.cache
    requires !IsMember(sys.store, o.key, o.cluster)
             && IsMember(Next(cfg, sys, Reconcile(at, faults)).store, o.key, o.cluster)
    ensures o == at && !Stuck(Next(cfg, sys, Reconcile(at, faults)), o)
  {
    CollisionFreeNames(cfg.keys, "", at.key, o.key);
    MembershipEffect(cfg.selector, sys.store, sys.local, at.cluster, at.key, Cached(sys, at), faults, o.key, o.cluster);
    JoinsInItsKind(cfg.selector, sys.store, sys.local, at.cluster, sys.cache[at], faults);
  }

  lemma DrainableStep(cfg: Config, sys: System, at: At, faults: C.Faults)
    requires CollisionFree(cfg.keys) && Inv(cfg, sys) && Drainable(sys) && Enabled(cfg, sys, Reconcile(at, faults))
    ensures Drainable(Next(cfg, sys, Reconcile(at, faults)))
  {
    var after := Next(cfg, sys, Reconcile(at, faults));
    forall o | o in sys.cache && IsMember(after.store, o.key, o.cluster) ensures !Stuck(after, o) {
      if IsMember(sys.store, o.key, o.cluster) {
        ListedStays(cfg, sys, Reconcile(at, faults), o);
        assert !Stuck(sys, o);
      } else {
        NewMember(cfg, sys, at, faults, o);
      }
    }
  }

  // --- Entries without a local service ---------------------------------------------------------------------

  ghost predicate HasPublisher(sys: System, n: string)
    requires n in sys.store
  {
    exists at :: at in sys.cache && at.key == sys.store[n].key
        && (sys.cache[at].clusterIP == "None" <==> sys.store[n].headless)
  }

  /** Each entry without a local service can get one, or is the last cluster's. */
  ghost predicate Publishable(sys: System) {
    forall n :: n in sys.store && n !in sys.local ==> |sys.store[n].clusters| == 1 || HasPublisher(sys, n)
  }

  /** Without a failing call, whoever loses the service crashes over such an entry and nobody publishes it. */
  ghost predicate Blocked(sys: System, n: string) {
    n in sys.store && n !in sys.local && |sys.store[n].clusters| >= 2 && !HasPublisher(sys, n)
  }

  lemma BlockedReconcile(cfg: Config, sys: System, at: At)
    requires Inv(cfg, sys) && at in sys.seen && Blocked(sys, GlobalName(at.key))
             && sys.store[GlobalName(at.key)].key == at.key
    ensures var effect := EffectOf(cfg, sys, at, NO_FAULTS);
            effect.verdict.Crashed? || (effect.store == sys.store && effect.local == sys.local)
  {
    if at !in sys.cache {
      var clusters := sys.store[GlobalName(at.key)].clusters;
      var c := if clusters[0] == at.cluster then clusters[1] else clusters[0];
      assert c != at.cluster && IsMember(sys.store, at.key, c);
      CrashesExactly(cfg.selector, sys.store, sys.local, at.cluster, at.key, Cached(sys, at), NO_FAULTS);
    }
  }

  lemma BlockedStep(cfg: Config, sys: System, a: Action, n: string)
    requires CollisionFree(cfg.keys) && Inv(cfg, sys) && Enabled(cfg, sys, a) && Blocked(sys, n)
    requires !a.Change? && (a.Reconcile? ==> a.faults == NO_FAULTS)
    ensures Blocked(Next(cfg, sys, a), n)
  {
    var k := sys.store[n].key;
    if a.Reconcile? {
      var at := a.at;
      if GlobalName(at.key) == n {
        EntryKeyIsItsOwn(cfg, sys, at);
        BlockedReconcile(cfg, sys, at);
      } else {
        StoreEffect(cfg.selector, sys.store, sys.local, at.cluster, at.key, Cached(sys, at), NO_FAULTS);
      }
    } else {
      NameShapes(GLOBAL_PREFIX, k);
      MirrorNameInSpace(GLOBAL_PREFIX, k);
    }
  }

  lemma {:induction false} BlockedRun(cfg: Config, sys: System, run: seq<Action>, n: string)
    requires CollisionFree(cfg.keys) && Inv(cfg, sys) && ValidRun(cfg, sys, run) && Blocked(sys, n)
    requires NoChanges(run) && FaultFree(run)
    ensures Blocked(Final(cfg, sys, run), n)
    decreases |run|
  {
    if run != [] {
      assert run[0] in run && forall a :: a in run[1..] ==> a in run;
      BlockedStep(cfg, sys, run[0], n);
      InvStep(cfg, sys, run[0]);
      BlockedRun(cfg, Next(cfg, sys, run[0]), run[1..], n);
    }
  }

  lemma RestIsNotBlocked(cfg: Config, sys: System, n: string)
    requires Inv(cfg, sys) && HeldInv(sys) && sys.pending == {}
    ensures !Blocked(sys, n)
  {
    if n in sys.store {
      var at := At(sys.store[n].clusters[0], sys.store[n].key);
      assert at in sys.seen && IsMember(sys.store, at.key, at.cluster);
      assert at in sys.cache && HasPublisher(sys, n);
    }
  }

  lemma DrainedWasPublishable(cfg: Config, sys: System, run: seq<Action>)
    requires CollisionFree(cfg.keys) && Inv(cfg, sys) && HeldInv(sys)
    requires ValidRun(cfg, sys, run) && NoChanges(run) && FaultFree(run) && Final(cfg, sys, run).pending == {}
    ensures Publishable(sys)
  {
    HeldRun(cfg, sys, run);
    forall n | n in sys.store && n !in sys.local ensures |sys.store[n].clusters| == 1 || HasPublisher(sys, n) {
      RestIsNotBlocked(cfg, Final(cfg, sys, run), n);
      if Blocked(sys, n) {
        BlockedRun(cfg, sys, run, n);
      }
    }
  }

  // --- How a drainable system drains ---------------------------------------------------------------------------

  /** Keys whose service is gone but whose cluster is still listed. */
  function Withdrawing(sys: System): set<At> {
    set at | at in sys.pending && at !in sys.cache && IsMember(sys.store, at.key, at.cluster)
  }

  function Backlog(sys: System): nat {
    |sys.pending| + |Withdrawing(sys)|
  }

  lemma WithdrawingShrinks(cfg: Config, sys: System, at: At, faults: C.Faults)
    requires CollisionFree(cfg.keys) && Inv(cfg, sys) && Enabled(cfg, sys, Reconcile(at, faults)) && at in sys.pending
    ensures Withdrawing(Next(cfg, sys, Reconcile(at, faults))) <= Withdrawing(sys)
  {
    var after := Next(cfg, sys, Reconcile(at, faults));
    forall o | o in Withdrawing(after) ensures o in Withdrawing(sys) {
      CollisionFreeNames(cfg.keys, "", at.key, o.key);
      if o == at {
        ApplyMembership(sys.store, CallOf(cfg.selector, at.cluster, at.key, Cached(sys, at)), o.key, o.cluster);
        StoreEffect(cfg.selector, sys.store, sys.local, at.cluster, at.key, Cached(sys, at), faults);
      } else {
        MembershipEffect(cfg.selector, sys.store, sys.local, at.cluster, at.key, Cached(sys, at), faults, o.key,
                         o.cluster);
      }
    }
  }

  /** While entries may lack their local service, a lookup that fails keeps the withdrawal of a cluster
      from crashing. */
  function WithdrawFaults(covered: bool): C.Faults {
    if covered then NO_FAULTS else C.Faults(false, true, C.Refused)
  }

  lemma Withdraws(cfg: Config, sys: System, at: At, faults: C.Faults)
    requires Inv(cfg, sys) && at !in sys.cache && !faults.read && Enabled(cfg, sys, Reconcile(at, faults))
    ensures at !in Withdrawing(Next(cfg, sys, Reconcile(at, faults)))
  {
    ApplyMembership(sys.store, Delete(at.key, at.cluster), at.key, at.cluster);
  }

  lemma WithdrawStep(cfg: Config, sys: System, at: At, covered: bool)
    requires CollisionFree(cfg.keys) && Inv(cfg, sys) && at in Withdrawing(sys) && (covered ==> Covered(sys))
    ensures Enabled(cfg, sys, Reconcile(at, WithdrawFaults(covered)))
    ensures Backlog(Next(cfg, sys, Reconcile(at, WithdrawFaults(covered)))) < Backlog(sys)
  {
    var faults := WithdrawFaults(covered);
    CrashesExactly(cfg.selector, sys.store, sys.local, at.cluster, at.key, Cached(sys, at), faults);
    var after := Next(cfg, sys, Reconcile(at, faults));
    WithdrawingShrinks(cfg, sys, at, faults);
    Withdraws(cfg, sys, at, faults);
    C.SubsetSize(Withdrawing(after), Withdrawing(sys) - {at});
    C.SubsetSize(after.pending, sys.pending);
  }

  /** With all gone services withdrawn, an entry lists only clusters that have the service. */
  lemma ListedAreCached(cfg: Config, sys: System, k: Key, c: string)
    requires Inv(cfg, sys) && Withdrawing(sys) == {} && IsMember(sys.store, k, c) && sys.store[GlobalName(k)].key == k
    ensures At(c, k) in sys.cache
  {
    var o := At(c, k);
    assert o in sys.seen && IsMember(sys.store, o.key, o.cluster);
    assert o !in Withdrawing(sys);
  }

  lemma SuccessStep(cfg: Config, sys: System, at: At)
    requires CollisionFree(cfg.keys) && Inv(cfg, sys) && HeldInv(sys) && Drainable(sys)
    requires at in sys.pending && Withdrawing(sys) == {}
    requires at in sys.cache || sys.pending !! sys.cache.Keys
    ensures Enabled(cfg, sys, Reconcile(at, NO_FAULTS)) && EffectOf(cfg, sys, at, NO_FAULTS).verdict.Reconciled?
  {
    var n := GlobalName(at.key);
    if n in sys.store {
      EntryKeyIsItsOwn(cfg, sys, at);
      var o := At(sys.store[n].clusters[0], at.key);
      ListedAreCached(cfg, sys, at.key, o.cluster);
      assert !Stuck(sys, o);
    }
    FaultFreeSucceedsExactly(cfg, sys, at);
  }

  /** With all reconciles free of faults, an entry without a local service is published or retracted first. */
  lemma PublishStep(cfg: Config, sys: System, n: string) returns (at: At)
    requires CollisionFree(cfg.keys) && Inv(cfg, sys) && HeldInv(sys) && Drainable(sys) && Publishable(sys)
    requires n in sys.store && n !in sys.local
    ensures at in sys.pending && GlobalName(at.key) == n && Enabled(cfg, sys, Reconcile(at, NO_FAULTS))
    ensures EffectOf(cfg, sys, at, NO_FAULTS).verdict.Reconciled?
  {
    var e := sys.store[n];
    if HasPublisher(sys, n) {
      at :| at in sys.cache && at.key == e.key && (sys.cache[at].clusterIP == "None" <==> e.headless);
    } else {
      at := At(e.clusters[0], e.key);
      assert at in sys.seen && IsMember(sys.store, at.key, at.cluster);
      assert !Stuck(sys, at);
    }
    FaultFreeSucceedsExactly(cfg, sys, at);
  }

  lemma PublishableStep(cfg: Config, sys: System, at: At)
    requires CollisionFree(cfg.keys) && Inv(cfg, sys) && Publishable(sys)
    requires Enabled(cfg, sys, Reconcile(at, NO_FAULTS)) && EffectOf(cfg, sys, at, NO_FAULTS).verdict.Reconciled?
    ensures Publishable(Next(cfg, sys, Reconcile(at, NO_FAULTS)))
  {
    var after := Next(cfg, sys, Reconcile(at, NO_FAULTS));
    SuccessAgrees(cfg.selector, sys.store, sys.local, at.cluster, at.key, Cached(sys, at), NO_FAULTS);
    StoreEffect(cfg.selector, sys.store, sys.local, at.cluster, at.key, Cached(sys, at), NO_FAULTS);
    forall n | n in after.store && n !in after.local
      ensures |after.store[n].clusters| == 1 || HasPublisher(after, n)
    {
      assert n in sys.store && after.store[n] == sys.store[n] && n !in sys.local;
      if HasPublisher(sys, n) {
        assert HasPublisher(after, n);
      }
    }
  }

  lemma BacklogShrinks(cfg: Config, sys: System, at: At)
    requires CollisionFree(cfg.keys) && Inv(cfg, sys) && at in sys.pending
    requires Enabled(cfg, sys, Reconcile(at, NO_FAULTS)) && EffectOf(cfg, sys, at, NO_FAULTS).verdict.Reconciled?
    ensures Backlog(Next(cfg, sys, Reconcile(at, NO_FAULTS))) < Backlog(sys)
  {
    var after := Next(cfg, sys, Reconcile(at, NO_FAULTS));
    WithdrawingShrinks(cfg, sys, at, NO_FAULTS);
    C.SubsetSize(Withdrawing(after), Withdrawing(sys));
  }

  /** Withdrawals come first, then the clusters that have the service, then the rest. */
  lemma OrderedStep(cfg: Config, sys: System) returns (at: At, faults: C.Faults)
    requires CollisionFree(cfg.keys) && Inv(cfg, sys) && HeldInv(sys) && Drainable(sys) && sys.pending != {}
    ensures at in sys.pending && Enabled(cfg, sys, Reconcile(at, faults))
    ensures Backlog(Next(cfg, sys, Reconcile(at, faults))) < Backlog(sys)
    ensures Covered(sys) ==> faults == NO_FAULTS && Covered(Next(cfg, sys, Reconcile(at, faults)))
  {
    if Withdrawing(sys) != {} {
      at :| at in Withdrawing(sys);
      faults := WithdrawFaults(Covered(sys));
      WithdrawStep(cfg, sys, at, Covered(sys));
    } else {
      at :| at in sys.pending && (at in sys.cache || sys.pending !! sys.cache.Keys);
      faults := NO_FAULTS;
      SuccessStep(cfg, sys, at);
      BacklogShrinks(cfg, sys, at);
    }
    if Covered(sys) {
      CoveredStep(cfg, sys, Reconcile(at, faults));
    }
  }

  /** The reconcile to take next. */
  lemma DrainStep(cfg: Config, sys: System) returns (at: At, faults: C.Faults)
    requires CollisionFree(cfg.keys) && Inv(cfg, sys) && HeldInv(sys) && Drainable(sys) && sys.pending != {}
    ensures at in sys.pending && Enabled(cfg, sys, Reconcile(at, faults))
    ensures var after := Next(cfg, sys, Reconcile(at, faults));
            && Inv(cfg, after) && HeldInv(after) && Drainable(after) && Backlog(after) < Backlog(sys)
            && (Publishable(sys) ==> faults == NO_FAULTS && Publishable(after))
  {
    faults := NO_FAULTS;
    if n :| Publishable(sys) && n in sys.store && n !in sys.local {
      at := PublishStep(cfg, sys, n);
      BacklogShrinks(cfg, sys, at);
      PublishableStep(cfg, sys, at);
    } else {
      at, faults := OrderedStep(cfg, sys);
    }
    InvStep(cfg, sys, Reconcile(at, faults));
    HeldStep(cfg, sys, Reconcile(at, faults));
    DrainableStep(cfg, sys, at, faults);
  }

  lemma {:induction false} DrainFrom(cfg: Config, sys: System) returns (run: seq<Action>)
    requires CollisionFree(cfg.keys) && Inv(cfg, sys) && HeldInv(sys) && Drainable(sys)
    ensures ValidRun(cfg, sys, run) && NoChanges(run) && Final(cfg, sys, run).pending == {}
    ensures Publishable(sys) ==> FaultFree(run)
    decreases Backlog(sys)
  {
    if sys.pending == {} {
      return [];
    }
    var at, faults := DrainStep(cfg, sys);
    var rest := DrainFrom(cfg, Next(cfg, sys, Reconcile(at, faults)));
    Prepend(cfg, sys, Reconcile(at, faults), rest);
    run := [Reconcile(at, faults)] + rest;
  }

  /** From every reachable state, with no further changes of the caches: all pending keys can be worked off
      exactly when the clusters that have a service have it in one kind, which is also the kind of the
      entry if one of them is listed there; and without any failing call exactly when besides each entry
      without a local service has a cluster to publish it, or just one to withdraw. */
  lemma DrainsExactlyWhenKindsAgree(cfg: Config, start: System, before: seq<Action>)
    requires CollisionFree(cfg.keys) && Initial(start) && ValidRun(cfg, start, before)
    ensures var mid := Final(cfg, start, before);
            && (CanDrain(cfg, mid) <==> Drainable(mid))
            && (CanDrainFaultFree(cfg, mid) <==> Drainable(mid) && Publishable(mid))
  {
    HeldRun(cfg, start, before);
    var mid := Final(cfg, start, before);
    if Drainable(mid) {
      var run := DrainFrom(cfg, mid);
    }
    if run :| ValidRun(cfg, mid, run) && NoChanges(run) && Final(cfg, mid, run).pending == {} {
      DrainedWasDrainable(cfg, mid, run);
    }
    if run :| ValidRun(cfg, mid, run) && NoChanges(run) && FaultFree(run) && Final(cfg, mid, run).pending == {} {
      DrainedWasPublishable(cfg, mid, run);
    }
  }

  // --- Any order ------------------------------------------------------------------------------------------------

  /** Pending keys are reconciled one after the other and no call fails. */
  ghost predicate Drains(cfg: Config, sys: System, run: seq<Action>)
    requires ValidRun(cfg, sys, run)
    decreases |run|
  {
    run != [] ==>
      && run[0].Reconcile? && run[0].at in sys.pending && run[0].faults == NO_FAULTS
      && Drains(cfg, Next(cfg, sys, run[0]), run[1..])
  }

  /** All definitions of a key that are cached, and the entry if there is one, are of one kind. */
  ghost predicate AllOfOneKind(sys: System) {
    && SameKinds(sys)
    && forall at :: at in sys.cache && GlobalName(at.key) in sys.store ==>
         (sys.store[GlobalName(at.key)].headless <==> sys.cache[at].clusterIP == "None")
  }

  lemma AllOfOneKindStep(cfg: Config, sys: System, at: At)
    requires CollisionFree(cfg.keys) && Inv(cfg, sys) && AllOfOneKind(sys)
             && Enabled(cfg, sys, Reconcile(at, NO_FAULTS))
    ensures AllOfOneKind(Next(cfg, sys, Reconcile(at, NO_FAULTS)))
  {
    var after := Next(cfg, sys, Reconcile(at, NO_FAULTS));
    HeadlessFlags.ReconcileFlags(cfg.selector, sys.store, sys.local, at.cluster, at.key, Cached(sys, at), NO_FAULTS);
    ReconcileHolds(cfg.selector, sys.store, sys.local, at.cluster, at.key, Cached(sys, at), NO_FAULTS);
    StoreEffect(cfg.selector, sys.store, sys.local, at.cluster, at.key, Cached(sys, at), NO_FAULTS);
    forall o | o in sys.cache && GlobalName(o.key) in after.store
      ensures after.store[GlobalName(o.key)].headless <==> after.cache[o].clusterIP == "None"
    {
      CollisionFreeNames(cfg.keys, "", at.key, o.key);
    }
  }

  /** A key to be withdrawn while others are listed has its local service. */
  ghost predicate WithdrawalsCovered(sys: System) {
    forall at, c :: at in sys.pending && at !in sys.cache && c != at.cluster && IsMember(sys.store, at.key, c) ==>
      GlobalName(at.key) in sys.local
  }

  lemma WithdrawalsCoveredStep(cfg: Config, sys: System, at: At)
    requires CollisionFree(cfg.keys) && Inv(cfg, sys) && WithdrawalsCovered(sys) && at in sys.pending
    requires Enabled(cfg, sys, Reconcile(at, NO_FAULTS)) && EffectOf(cfg, sys, at, NO_FAULTS).verdict.Reconciled?
    ensures WithdrawalsCovered(Next(cfg, sys, Reconcile(at, NO_FAULTS)))
  {
    var after := Next(cfg, sys, Reconcile(at, NO_FAULTS));
    SuccessAgrees(cfg.selector, sys.store, sys.local, at.cluster, at.key, Cached(sys, at), NO_FAULTS);
    StoreEffect(cfg.selector, sys.store, sys.local, at.cluster, at.key, Cached(sys, at), NO_FAULTS);
    forall o, c | o in after.pending && o !in after.cache && c != o.cluster && IsMember(after.store, o.key, c)
      ensures GlobalName(o.key) in after.local
    {
      CollisionFreeNames(cfg.keys, "", at.key, o.key);
      if o.key == at.key && at !in sys.cache {
        MembershipEffect(cfg.selector, sys.store, sys.local, at.cluster, at.key, None, NO_FAULTS, at.key, c);
        ReconcileHolds(cfg.selector, sys.store, sys.local, at.cluster, at.key, None, NO_FAULTS);
        assert IsMember(sys.store, at.key, c);
        assert GlobalName(o.key) in after.local;
      } else if o.key == at.key {
        assert GlobalName(o.key) in after.local;
      } else {
        assert IsMember(sys.store, o.key, c);
        assert GlobalName(o.key) in after.local;
      }
    }
  }

  /** Every pending key has been reconciled or can be, and one step was enough for each that was. */
  ghost predicate Drained(cfg: Config, sys: System, run: seq<Action>)
    requires ValidRun(cfg, sys, run)
  {
    var end := Final(cfg, sys, run);
    && |run| + |end.pending| == |sys.pending|
    && forall at :: at in end.pending ==> Enabled(cfg, end, Reconcile(at, NO_FAULTS))
  }

  lemma SmoothStep(cfg: Config, sys: System, at: At)
    requires CollisionFree(cfg.keys) && Inv(cfg, sys) && AllOfOneKind(sys) && at in sys.pending
    requires Enabled(cfg, sys, Reconcile(at, NO_FAULTS))
    ensures var after := Next(cfg, sys, Reconcile(at, NO_FAULTS));
            && Inv(cfg, after) && AllOfOneKind(after) && after.pending == sys.pending - {at} && after.cache == sys.cache
            && (WithdrawalsCovered(sys) ==> WithdrawalsCovered(after))
  {
    FaultFreeSucceedsExactly(cfg, sys, at);
    InvStep(cfg, sys, Reconcile(at, NO_FAULTS));
    AllOfOneKindStep(cfg, sys, at);
    if WithdrawalsCovered(sys) {
      WithdrawalsCoveredStep(cfg, sys, at);
    }
  }

  /** Where kinds agree and calls do not fail, every reconcile of a pending key, in any order, succeeds
      and takes that key off; and if withdrawals find their local services, no order crashes. */
  lemma {:induction false} DrainsInAnyOrder(cfg: Config, sys: System, run: seq<Action>)
    requires CollisionFree(cfg.keys) && Inv(cfg, sys) && AllOfOneKind(sys)
    requires ValidRun(cfg, sys, run) && Drains(cfg, sys, run)
    ensures |run| + |Final(cfg, sys, run).pending| == |sys.pending|
    ensures Final(cfg, sys, run).cache == sys.cache
    ensures WithdrawalsCovered(sys) ==> Drained(cfg, sys, run)
    decreases |run|
  {
    if run == [] {
      forall at | at in sys.pending && WithdrawalsCovered(sys) ensures Enabled(cfg, sys, Reconcile(at, NO_FAULTS)) {
        CrashesExactly(cfg.selector, sys.store, sys.local, at.cluster, at.key, Cached(sys, at), NO_FAULTS);
      }
    } else {
      SmoothStep(cfg, sys, run[0].at);
      DrainsInAnyOrder(cfg, Next(cfg, sys, run[0]), run[1..]);
    }
  }

  ghost predicate EveryOrderSucceeds(cfg: Config, sys: System) {
    forall run :: ValidRun(cfg, sys, run) && Drains(cfg, sys, run) ==> Drained(cfg, sys, run)
  }

  lemma FailingOrder(cfg: Config, sys: System, at: At)
    requires Inv(cfg, sys) && HeldInv(sys) && at in sys.cache && GlobalName(at.key) in sys.store
    requires sys.store[GlobalName(at.key)].headless <==> sys.cache[at].clusterIP != "None"
    ensures !EveryOrderSucceeds(cfg, sys)
  {
    var a := Reconcile(at, NO_FAULTS);
    var run := [a];
    FaultFreeSucceedsExactly(cfg, sys, at);
    assert at in sys.pending && Next(cfg, sys, a).pending == sys.pending;
    Prepend(cfg, sys, a, []);
    assert [a] + [] == run;
    assert ValidRun(cfg, sys, run) && Drains(cfg, sys, run);
    var end := Final(cfg, sys, run);
    assert end == Next(cfg, sys, a);
    assert |run| + |end.pending| == 1 + |sys.pending|;
    assert !Drained(cfg, sys, run);
  }

  lemma CrashingOrder(cfg: Config, sys: System, at: At, c: string)
    requires Inv(cfg, sys) && at in sys.pending && at !in sys.cache
    requires c != at.cluster && IsMember(sys.store, at.key, c) && GlobalName(at.key) !in sys.local
    ensures !EveryOrderSucceeds(cfg, sys)
  {
    CrashesExactly(cfg.selector, sys.store, sys.local, at.cluster, at.key, Cached(sys, at), NO_FAULTS);
    assert ValidRun(cfg, sys, []) && Drains(cfg, sys, []) && !Drained(cfg, sys, []);
  }

  lemma FailsLater(cfg: Config, sys: System, at: At)
    requires at in sys.pending && Enabled(cfg, sys, Reconcile(at, NO_FAULTS))
    requires EffectOf(cfg, sys, at, NO_FAULTS).verdict.Reconciled?
    requires !EveryOrderSucceeds(cfg, Next(cfg, sys, Reconcile(at, NO_FAULTS)))
    ensures !EveryOrderSucceeds(cfg, sys)
  {
    var a := Reconcile(at, NO_FAULTS);
    var after := Next(cfg, sys, a);
    var run :| ValidRun(cfg, after, run) && Drains(cfg, after, run) && !Drained(cfg, after, run);
    Prepend(cfg, sys, a, run);
    assert ([a] + run)[1..] == run;
    assert Drains(cfg, sys, [a] + run) && !Drained(cfg, sys, [a] + run);
  }

  /** With no entry yet, the first of two different definitions makes one and the second one fails. */
  lemma FirstComeFails(cfg: Config, sys: System, at: At, o: At)
    requires CollisionFree(cfg.keys) && Inv(cfg, sys) && HeldInv(sys)
    requires at in sys.cache && o in sys.cache && at.key == o.key
    requires sys.cache[at].clusterIP == "None" <==> sys.cache[o].clusterIP != "None"
    requires GlobalName(at.key) !in sys.store
    ensures !EveryOrderSucceeds(cfg, sys)
  {
    var a := Reconcile(at, NO_FAULTS);
    FaultFreeSucceedsExactly(cfg, sys, at);
    InvStep(cfg, sys, a);
    HeldStep(cfg, sys, a);
    FailingOrder(cfg, Next(cfg, sys, a), o);
    FailsLater(cfg, sys, at);
  }

  lemma MixedKindsFail(cfg: Config, sys: System)
    requires CollisionFree(cfg.keys) && Inv(cfg, sys) && HeldInv(sys) && !AllOfOneKind(sys)
    ensures !EveryOrderSucceeds(cfg, sys)
  {
    if at :| at in sys.cache && GlobalName(at.key) in sys.store
             && (sys.store[GlobalName(at.key)].headless <==> sys.cache[at].clusterIP != "None") {
      FailingOrder(cfg, sys, at);
    } else {
      var at, o :| at in sys.cache && o in sys.cache && at.key == o.key
                   && (sys.cache[at].clusterIP == "None" <==> sys.cache[o].clusterIP != "None");
      FirstComeFails(cfg, sys, at, o);
    }
  }

  /** From every reachable state: no fault-free order of the pending keys meets an error or the nil
      dereference exactly when all cached definitions and the entry of each key are of one kind, and each
      withdrawal from an entry that others keep finds the local service. */
  lemma EveryOrderSucceedsExactly(cfg: Config, start: System, before: seq<Action>)
    requires CollisionFree(cfg.keys) && Initial(start) && ValidRun(cfg, start, before)
    ensures var mid := Final(cfg, start, before);
            EveryOrderSucceeds(cfg, mid) <==> AllOfOneKind(mid) && WithdrawalsCovered(mid)
  {
    HeldRun(cfg, start, before);
    var mid := Final(cfg, start, before);
    if !AllOfOneKind(mid) {
      MixedKindsFail(cfg, mid);
    } else if at, c :| at in mid.pending && at !in mid.cache && c != at.cluster && IsMember(mid.store, at.key, c)
                       && GlobalName(at.key) !in mid.local {
      CrashingOrder(cfg, mid, at, c);
    } else {
      forall run | ValidRun(cfg, mid, run) && Drains(cfg, mid, run) ensures Drained(cfg, mid, run) {
        DrainsInAnyOrder(cfg, mid, run);
      }
    }
  }
}
