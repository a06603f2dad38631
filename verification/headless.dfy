/** Headless flags of global services: when an entry and its local service differ
    (globalservice.go, kube/common.go). */
module HeadlessFlags {
  import opened Wrappers
  import opened Naming
  import opened Lists
  import opened GlobalStore
  import opened Aggregation
  import C = Controller

  // --- The flag of an entry and that of its local service -----------------------------------------------

  predicate Differ(store: Contents, local: Locals, n: string) {
    n in store && n in local && (store[n].headless <==> local[n].clusterIP != "None")
  }

  predicate FlagsDiffer(sys: System, n: string) {
    Differ(sys.store, sys.local, n)
  }

  ghost predicate FlagsAgree(sys: System) {
    forall n :: n in sys.store ==> !FlagsDiffer(sys, n)
  }

  /** A reconcile that makes a new entry over a local service of the other kind, left there by a delete
      that failed or by an earlier process. */
  predicate OverLeftover(sys: System, a: Action, n: string) {
    && a.Reconcile? && !a.faults.read && a.at in sys.cache && n == GlobalName(a.at.key)
    && n !in sys.store && n in sys.local
    && (sys.cache[a.at].clusterIP == "None" <==> sys.local[n].clusterIP != "None")
  }

  lemma DriftReconcile(selector: map<string, string>, store: Contents, local: Locals, cluster: string, k: Key,
                       remote: Option<RemoteService>, faults: C.Faults)
    requires remote.Some? ==> remote.value.key == k
    ensures var effect, n := ReconcileGlobal(selector, store, local, cluster, k, remote, faults), GlobalName(k);
            Differ(effect.store, effect.local, n) <==>
            || (!faults.read && remote.Some? && n !in store && n in local
                && (remote.value.clusterIP == "None" <==> local[n].clusterIP != "None"))
            || (Differ(store, local, n) && n in effect.store && n in effect.local)
  {
  }

  /** The flags differ after a step exactly when it makes an entry over such a leftover, or they differed
      before and the step removes neither. */
  lemma DriftStep(cfg: Config, sys: System, a: Action, n: string)
    requires Inv(cfg, sys) && Enabled(cfg, sys, a)
    ensures var after := Next(cfg, sys, a);
            FlagsDiffer(after, n) <==>
                OverLeftover(sys, a, n) || (FlagsDiffer(sys, n) && n in after.store && n in after.local)
  {
    if a.Reconcile? {
      var effect := EffectOf(cfg, sys, a.at, a.faults);
      assert FlagsDiffer(Next(cfg, sys, a), n) == Differ(effect.store, effect.local, n);
      if n == GlobalName(a.at.key) {
        DriftReconcile(cfg.selector, sys.store, sys.local, a.at.cluster, a.at.key, Cached(sys, a.at), a.faults);
      } else {
        StoreEffect(cfg.selector, sys.store, sys.local, a.at.cluster, a.at.key, Cached(sys, a.at), a.faults);
      }
    } else if n in sys.store {
      NameShapes(GLOBAL_PREFIX, sys.store[n].key);
      MirrorNameInSpace(GLOBAL_PREFIX, sys.store[n].key);
    }
  }

  ghost predicate BothStay(cfg: Config, sys: System, run: seq<Action>, n: string)
    requires ValidRun(cfg, sys, run)
    decreases |run|
  {
    n in sys.store && n in sys.local && (run != [] ==> BothStay(cfg, Next(cfg, sys, run[0]), run[1..], n))
  }

  /** Some step makes the entry over a leftover of the other kind, and both last to the end of the run. */
  ghost predicate Drifts(cfg: Config, sys: System, run: seq<Action>, n: string)
    requires ValidRun(cfg, sys, run)
    decreases |run|
  {
    run != [] &&
    var after := Next(cfg, sys, run[0]);
    (OverLeftover(sys, run[0], n) && BothStay(cfg, after, run[1..], n)) || Drifts(cfg, after, run[1..], n)
  }

  ghost predicate NoLeftoverTakenOver(cfg: Config, sys: System, run: seq<Action>)
    requires ValidRun(cfg, sys, run)
    decreases |run|
  {
    run != [] ==>
      && (forall n :: !OverLeftover(sys, run[0], n))
      && NoLeftoverTakenOver(cfg, Next(cfg, sys, run[0]), run[1..])
  }

  ghost predicate AgreeThroughout(cfg: Config, sys: System, run: seq<Action>)
    requires ValidRun(cfg, sys, run)
    decreases |run|
  {
    FlagsAgree(sys) && (run != [] ==> AgreeThroughout(cfg, Next(cfg, sys, run[0]), run[1..]))
  }

  lemma {:induction false} DriftRun(cfg: Config, sys: System, run: seq<Action>, n: string)
    requires CollisionFree(cfg.keys) && Inv(cfg, sys) && ValidRun(cfg, sys, run)
    ensures FlagsDiffer(Final(cfg, sys, run), n) <==>
              (FlagsDiffer(sys, n) && BothStay(cfg, sys, run, n)) || Drifts(cfg, sys, run, n)
    decreases |run|
  {
    if run != [] {
      DriftStep(cfg, sys, run[0], n);
      InvStep(cfg, sys, run[0]);
      DriftRun(cfg, Next(cfg, sys, run[0]), run[1..], n);
    }
  }

  /** After every run, at rest or not: an entry and its local service are of different kinds exactly when
      the entry was made over a leftover of the other kind and both have been there since. */
  lemma DriftsExactly(cfg: Config, start: System, run: seq<Action>, n: string)
    requires CollisionFree(cfg.keys) && Initial(start) && ValidRun(cfg, start, run)
    ensures FlagsDiffer(Final(cfg, start, run), n) <==> Drifts(cfg, start, run, n)
  {
    DriftRun(cfg, start, run, n);
  }

  lemma {:induction false} AgreeRun(cfg: Config, sys: System, run: seq<Action>)
    requires CollisionFree(cfg.keys) && Inv(cfg, sys) && FlagsAgree(sys) && ValidRun(cfg, sys, run)
    ensures AgreeThroughout(cfg, sys, run) <==> NoLeftoverTakenOver(cfg, sys, run)
    decreases |run|
  {
    if run != [] {
      var after := Next(cfg, sys, run[0]);
      forall n ensures FlagsDiffer(after, n) <==> OverLeftover(sys, run[0], n) {
        DriftStep(cfg, sys, run[0], n);
      }
      InvStep(cfg, sys, run[0]);
      if FlagsAgree(after) {
        AgreeRun(cfg, after, run[1..]);
      }
    }
  }

  /** All entries agree with their local services in every state of a run exactly when none of its steps
      makes an entry over a leftover of the other kind. */
  lemma AgreeThroughoutExactly(cfg: Config, start: System, run: seq<Action>)
    requires CollisionFree(cfg.keys) && Initial(start) && ValidRun(cfg, start, run)
    ensures AgreeThroughout(cfg, start, run) <==> NoLeftoverTakenOver(cfg, start, run)
  {
    AgreeRun(cfg, start, run);
  }

  /** Headlessness is not part of the agreement: a delete that is turned down and a service that comes
      back headless leave, at rest and with all calls for the last reconcile done, a headless entry
      over a local service that is not. */
  lemma HeadlessCanDrift(cfg: Config, start: System, svc: RemoteService, a: string) returns (run: seq<Action>)
    requires Initial(start) && svc.key in cfg.keys && a in cfg.clusters && svc.clusterIP != "None"
             && GlobalName(svc.key) !in start.local
    ensures ValidRun(cfg, start, run)
    ensures var end, n := Final(cfg, start, run), GlobalName(svc.key);
            && end.pending == {} && n in end.store && n in end.local
            && end.store[n].headless && end.local[n].clusterIP != "None"
  {
    var at, n := At(a, svc.key), GlobalName(svc.key);
    var later := svc.(clusterIP := "None");
    var turnedDown := NO_FAULTS.(write := C.Refused);
    var s1 := Next(cfg, start, Change(at, Some(svc)));
    var s2 := Next(cfg, s1, Reconcile(at, NO_FAULTS));
    assert s2.store[n].clusters == [a] && s2.local[n].clusterIP == "";
    var s3 := Next(cfg, s2, Change(at, None));
    assert SwapRemoved([a], 0) == [];
    var s4 := Next(cfg, s3, Reconcile(at, turnedDown));
    assert n !in s4.store && s4.local == s2.local && s4.pending == {at};
    var s5 := Next(cfg, s4, Change(at, Some(later)));
    Prepend(cfg, s5, Reconcile(at, NO_FAULTS), []);
    run := [Reconcile(at, NO_FAULTS)];
    Prepend(cfg, s4, Change(at, Some(later)), run);
    run := [Change(at, Some(later))] + run;
    Prepend(cfg, s3, Reconcile(at, turnedDown), run);
    run := [Reconcile(at, turnedDown)] + run;
    Prepend(cfg, s2, Change(at, None), run);
    run := [Change(at, None)] + run;
    Prepend(cfg, s1, Reconcile(at, NO_FAULTS), run);
    run := [Reconcile(at, NO_FAULTS)] + run;
    Prepend(cfg, start, Change(at, Some(svc)), run);
    run := [Change(at, Some(svc))] + run;
  }

  // --- Where all definitions of a key agree ----------------------------------------------------------------

  ghost predicate LocalFlags(cfg: Config, flags: Key -> bool, local: Locals) {
    forall k :: k in cfg.keys && GlobalName(k) in local ==> (local[GlobalName(k)].clusterIP == "None" <==> flags(k))
  }

  ghost predicate OfOneKind(cfg: Config, flags: Key -> bool, sys: System) {
    && (forall at :: at in sys.cache ==> (sys.cache[at].clusterIP == "None" <==> flags(at.key)))
    && (forall at :: at in sys.seen && GlobalName(at.key) in sys.store ==>
        (sys.store[GlobalName(at.key)].headless <==> flags(at.key)))
    && LocalFlags(cfg, flags, sys.local)
  }

  ghost predicate ChangesOfOneKind(flags: Key -> bool, run: seq<Action>) {
    forall a :: a in run && a.Change? && a.svc.Some? ==> (a.svc.value.clusterIP == "None" <==> flags(a.svc.value.key))
  }

  lemma ReconcileFlags(selector: map<string, string>, store: Contents, local: Locals, cluster: string, k: Key,
                       remote: Option<RemoteService>, faults: C.Faults)
    requires remote.Some? ==> remote.value.key == k
    ensures var effect, n := ReconcileGlobal(selector, store, local, cluster, k, remote, faults), GlobalName(k);
            && (n in effect.store ==>
                  (n in store && effect.store[n].headless == store[n].headless)
                  || (remote.Some? && effect.store[n].headless == (remote.value.clusterIP == "None")))
            && (n in effect.local ==>
                  (n in local && effect.local[n].clusterIP == local[n].clusterIP)
                  || (n in effect.store && (effect.local[n].clusterIP == "None" <==> effect.store[n].headless)))
  {
  }

  lemma OwnEntryFlag(cfg: Config, flags: Key -> bool, sys: System, k: Key)
    requires CollisionFree(cfg.keys) && Inv(cfg, sys) && OfOneKind(cfg, flags, sys)
    requires k in cfg.keys && GlobalName(k) in sys.store
    ensures sys.store[GlobalName(k)].headless <==> flags(k)
  {
    var e := sys.store[GlobalName(k)];
    assert At(e.clusters[0], e.key) in sys.seen;
    CollisionFreeNames(cfg.keys, "", k, e.key);
  }

  lemma ReconciledFlags(cfg: Config, flags: Key -> bool, sys: System, at: At, faults: C.Faults, k: Key)
    requires CollisionFree(cfg.keys) && Inv(cfg, sys) && OfOneKind(cfg, flags, sys)
             && Enabled(cfg, sys, Reconcile(at, faults))
    requires k in cfg.keys
    ensures var after, n := Next(cfg, sys, Reconcile(at, faults)), GlobalName(k);
            && (n in after.local ==> (after.local[n].clusterIP == "None" <==> flags(k)))
            && (n in after.store ==> (after.store[n].headless <==> flags(k)))
  {
    CollisionFreeNames(cfg.keys, "", k, at.key);
    if GlobalName(k) in sys.store {
      OwnEntryFlag(cfg, flags, sys, k);
    }
    if k == at.key {
      ReconcileFlags(cfg.selector, sys.store, sys.local, at.cluster, at.key, Cached(sys, at), faults);
    } else {
      StoreEffect(cfg.selector, sys.store, sys.local, at.cluster, at.key, Cached(sys, at), faults);
    }
  }

  lemma OfOneKindReconcile(cfg: Config, flags: Key -> bool, sys: System, at: At, faults: C.Faults)
    requires CollisionFree(cfg.keys) && Inv(cfg, sys) && OfOneKind(cfg, flags, sys)
             && Enabled(cfg, sys, Reconcile(at, faults))
    ensures OfOneKind(cfg, flags, Next(cfg, sys, Reconcile(at, faults)))
  {
    var after := Next(cfg, sys, Reconcile(at, faults));
    forall k | k in cfg.keys
      ensures GlobalName(k) in after.local ==> (after.local[GlobalName(k)].clusterIP == "None" <==> flags(k))
      ensures GlobalName(k) in after.store ==> (after.store[GlobalName(k)].headless <==> flags(k))
    {
      ReconciledFlags(cfg, flags, sys, at, faults, k);
    }
  }

  lemma OfOneKindStep(cfg: Config, flags: Key -> bool, sys: System, a: Action)
    requires CollisionFree(cfg.keys) && Inv(cfg, sys) && OfOneKind(cfg, flags, sys) && Enabled(cfg, sys, a)
    requires ChangesOfOneKind(flags, [a])
    ensures OfOneKind(cfg, flags, Next(cfg, sys, a))
    ensures forall n :: !OverLeftover(sys, a, n)
  {
    match a
    case Reconcile(at, faults) => OfOneKindReconcile(cfg, flags, sys, at, faults);
    case Outside(n, _) =>
      forall k ensures GlobalName(k) != n {
        NameShapes(GLOBAL_PREFIX, k);
        MirrorNameInSpace(GLOBAL_PREFIX, k);
      }
    case Change(at, svc) =>
      assert a in [a];
      if GlobalName(at.key) in sys.store {
        OwnEntryFlag(cfg, flags, sys, at.key);
      }
  }

  lemma {:induction false} OfOneKindRun(cfg: Config, flags: Key -> bool, sys: System, run: seq<Action>)
    requires CollisionFree(cfg.keys) && Inv(cfg, sys) && OfOneKind(cfg, flags, sys)
    requires ValidRun(cfg, sys, run) && ChangesOfOneKind(flags, run)
    ensures NoLeftoverTakenOver(cfg, sys, run)
    ensures OfOneKind(cfg, flags, Final(cfg, sys, run))
    decreases |run|
  {
    if run != [] {
      assert run[0] in run && forall a :: a in run[1..] ==> a in run;
      OfOneKindStep(cfg, flags, sys, run[0]);
      InvStep(cfg, sys, run[0]);
      OfOneKindRun(cfg, flags, Next(cfg, sys, run[0]), run[1..]);
    }
  }

  /** Where all definitions of a key that ever appear, leftovers included, are of one kind, entries and
      local services agree in every state. */
  lemma OneKindNeverDrifts(cfg: Config, flags: Key -> bool, start: System, run: seq<Action>)
    requires CollisionFree(cfg.keys) && Initial(start) && LocalFlags(cfg, flags, start.local)
    requires ValidRun(cfg, start, run) && ChangesOfOneKind(flags, run)
    ensures AgreeThroughout(cfg, start, run)
  {
    OfOneKindRun(cfg, flags, start, run);
    AgreeThroughoutExactly(cfg, start, run);
  }

  /** And they are of that kind: an entry is headless, and a local service has no cluster IP, exactly if the
      definitions of the key say so. */
  lemma OneKindThroughout(cfg: Config, flags: Key -> bool, start: System, run: seq<Action>, at: At)
    requires CollisionFree(cfg.keys) && Initial(start) && LocalFlags(cfg, flags, start.local)
    requires ValidRun(cfg, start, run) && ChangesOfOneKind(flags, run) && at in Final(cfg, start, run).seen
    ensures var end, n := Final(cfg, start, run), GlobalName(at.key);
            && (n in end.store ==> (end.store[n].headless <==> flags(at.key)))
            && (n in end.local ==> (end.local[n].clusterIP == "None" <==> flags(at.key)))
            && (at in end.cache ==> (end.cache[at].clusterIP == "None" <==> flags(at.key)))
  {
    OfOneKindRun(cfg, flags, start, run);
    InvRun(cfg, start, run);
  }
}
