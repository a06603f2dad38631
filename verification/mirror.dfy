/** Mirroring the services and Endpoints of one remote cluster (mirror_runner.go). */
module Mirror {
  import opened Wrappers
  import opened Naming
  import opened Lists
  import opened GlobalStore
  import opened Controller
  import opened Kube

  datatype Subset = Subset(addresses: seq<string>, notReady: seq<string>, ports: seq<ServicePort>)

  datatype RemoteEndpoints = RemoteEndpoints(key: Key, subsets: seq<Subset>)

  datatype LocalEndpoints = LocalEndpoints(labels: map<string, string>, subsets: seq<Subset>)

  function MirrorLabels(prefix: string): map<string, string> {
    map["mirrored-svc" := "true", "mirror-svc-prefix-sync" := prefix]
  }

  // --- The two kinds as instances of the step system ----------------------------------------------

  ghost function ServiceKind(prefix: string, keys: iset<Key>): Kind<RemoteService, LocalService> {
    Kind(
      (k: Key) => k in keys,
      (k: Key) => MirrorName(prefix, k),
      (n: string) => InSpace(prefix, n),
      (v: RemoteService) => true,
      (k: Key, v: RemoteService) => NewService(MirrorLabels(prefix), map[], v.ports, IsHeadless(v)),
      (k: Key, l: LocalService, v: RemoteService) => WithPorts(l, v.ports),
      (k: Key, l: LocalService, v: RemoteService) => l.ports == v.ports && l.selector == map[],
      (l: LocalService) => HasLabels(l.labels, MirrorLabels(prefix)))
  }

  ghost function EndpointsKind(prefix: string, keys: iset<Key>): Kind<RemoteEndpoints, LocalEndpoints> {
    Kind(
      (k: Key) => k in keys,
      (k: Key) => MirrorName(prefix, k),
      (n: string) => InSpace(prefix, n),
      (v: RemoteEndpoints) => true,
      (k: Key, v: RemoteEndpoints) => LocalEndpoints(MirrorLabels(prefix), v.subsets),
      (k: Key, l: LocalEndpoints, v: RemoteEndpoints) => LocalEndpoints(MirrorLabels(prefix), v.subsets),
      (k: Key, l: LocalEndpoints, v: RemoteEndpoints) => l.subsets == v.subsets,
      (l: LocalEndpoints) => HasLabels(l.labels, MirrorLabels(prefix)))
  }

  /** On collision-free keys both kinds meet the laws the step system asks for. */
  lemma MirrorKindsLawful(prefix: string, keys: iset<Key>)
    requires CollisionFree(keys)
    ensures Lawful(ServiceKind(prefix, keys))
    ensures Lawful(EndpointsKind(prefix, keys))
  {
    forall k1, k2 | k1 in keys && k2 in keys && MirrorName(prefix, k1) == MirrorName(prefix, k2)
      ensures k1 == k2
    {
      CollisionFreeNames(keys, prefix, k1, k2);
    }
    forall k ensures InSpace(prefix, MirrorName(prefix, k)) {
      MirrorNameInSpace(prefix, k);
    }
  }

  ghost predicate BothCanSettle(prefix: string, keys: iset<Key>, r: Runner<RemoteService, LocalService>,
                                remote: map<Key, RemoteService>, k1: Key, k2: Key) {
    exists local :: var s := State(r.(remote := remote), local);
      Settled(ServiceKind(prefix, keys), s, k1) && Settled(ServiceKind(prefix, keys), s, k2)
  }

  /** The condition cannot be dropped: two keys can always both agree with the cache, whatever it
      holds, exactly when their mirrors have different names. */
  lemma AgreementNeedsDistinctNames(prefix: string, keys: iset<Key>, r: Runner<RemoteService, LocalService>, k1: Key,
                                    k2: Key)
    requires k1 != k2
    ensures MirrorName(prefix, k1) != MirrorName(prefix, k2) <==>
            forall remote: map<Key, RemoteService> {:trigger BothCanSettle(prefix, keys, r, remote, k1, k2)} ::
              BothCanSettle(prefix, keys, r, remote, k1, k2)
  {
    var kind := ServiceKind(prefix, keys);
    if MirrorName(prefix, k1) != MirrorName(prefix, k2) {
      forall remote: map<Key, RemoteService> ensures BothCanSettle(prefix, keys, r, remote, k1, k2) {
        var local: map<string, LocalService> := map[];
        if k1 in remote {
          local := local[kind.name(k1) := kind.create(k1, remote[k1])];
        }
        if k2 in remote {
          local := local[kind.name(k2) := kind.create(k2, remote[k2])];
        }
        var s := State(r.(remote := remote), local);
        assert Settled(kind, s, k1) && Settled(kind, s, k2);
      }
    } else {
      var remote := map[k1 := RemoteService(k1, [], "", map[])];
      assert !BothCanSettle(prefix, keys, r, remote, k1, k2);
    }
  }

  /** What the runner of one cluster guarantees for its services, over every run: no update is lost; and
      once at rest with no stale mirror left over, the services carrying its labels are exactly those of
      the cache, each with the cached ports and no selector. */
  lemma MirroredServicesExact(prefix: string, keys: iset<Key>, s: State<RemoteService, LocalService>,
                              run: seq<Action<RemoteService, LocalService>>)
    requires CollisionFree(keys)
    requires Initial(ServiceKind(prefix, keys), s) && ValidRun(ServiceKind(prefix, keys), s, run)
    ensures var end := Final(ServiceKind(prefix, keys), s, run);
            && (forall k :: k in end.r.seen ==> Pending(end.r, k) || Settled(ServiceKind(prefix, keys), end, k))
            && (end.r.tidy && Quiescent(end.r) ==>
                  && (forall n :: n in end.local && HasLabels(end.local[n].labels, MirrorLabels(prefix)) <==>
                        exists k :: k in end.r.remote && n == MirrorName(prefix, k))
                  && forall k :: k in end.r.remote ==>
                       && MirrorName(prefix, k) in end.local
                       && end.local[MirrorName(prefix, k)].ports == end.r.remote[k].ports
                       && end.local[MirrorName(prefix, k)].selector == map[])
  {
    var kind := ServiceKind(prefix, keys);
    MirrorKindsLawful(prefix, keys);
    var end := Final(kind, s, run);
    forall k | k in end.r.seen ensures Pending(end.r, k) || Settled(kind, end, k) {
      NoLostUpdate(kind, s, run, k);
    }
    if end.r.tidy && Quiescent(end.r) {
      StartupExact(kind, s, run);
      forall k | k in end.r.remote ensures MirrorName(prefix, k) in Names(kind, end.r.remote.Keys) {
        assert kind.name(k) in Names(kind, end.r.remote.Keys);
      }
    }
  }

  /** The counterpart for Endpoints: each mirror has the subsets of the cached object of its key. */
  lemma MirroredEndpointsExact(prefix: string, keys: iset<Key>, s: State<RemoteEndpoints, LocalEndpoints>,
                               run: seq<Action<RemoteEndpoints, LocalEndpoints>>)
    requires CollisionFree(keys)
    requires Initial(EndpointsKind(prefix, keys), s) && ValidRun(EndpointsKind(prefix, keys), s, run)
    ensures var end := Final(EndpointsKind(prefix, keys), s, run);
            && (forall k :: k in end.r.seen ==>
                  || Pending(end.r, k)
                  || (k in end.r.remote && MirrorName(prefix, k) in end.local
                      && end.local[MirrorName(prefix, k)].subsets == end.r.remote[k].subsets)
                  || (k !in end.r.remote && MirrorName(prefix, k) !in end.local))
            && (end.r.tidy && Quiescent(end.r) ==>
                  && (forall n :: n in end.local && HasLabels(end.local[n].labels, MirrorLabels(prefix)) <==>
                        exists k :: k in end.r.remote && n == MirrorName(prefix, k))
                  && forall k :: k in end.r.remote ==>
                       && MirrorName(prefix, k) in end.local
                       && end.local[MirrorName(prefix, k)].subsets == end.r.remote[k].subsets)
  {
    var kind := EndpointsKind(prefix, keys);
    MirrorKindsLawful(prefix, keys);
    var end := Final(kind, s, run);
    forall k | k in end.r.seen ensures Pending(end.r, k) || Settled(kind, end, k) {
      NoLostUpdate(kind, s, run, k);
    }
    if end.r.tidy && Quiescent(end.r) {
      StartupExact(kind, s, run);
      forall k | k in end.r.remote ensures MirrorName(prefix, k) in Names(kind, end.r.remote.Keys) {
        assert kind.name(k) in Names(kind, end.r.remote.Keys);
      }
    }
  }

  // --- Headless mirrors ----------------------------------------------------------------------------

  /** Local services under the names of some keys are headless exactly if those keys are flagged. */
  ghost predicate FlaggedMirrors(prefix: string, keys: iset<Key>, flags: Key -> bool,
                                 local: map<string, LocalService>) {
    forall k :: k in keys && MirrorName(prefix, k) in local ==>
      (local[MirrorName(prefix, k)].clusterIP == "None" <==> flags(k))
  }

  ghost predicate FlaggedChange(flags: Key -> bool, a: Action<RemoteService, LocalService>) {
    a.CacheSet? ==> (a.value.clusterIP == "None" <==> flags(a.key))
  }

  ghost predicate Flagged(prefix: string, keys: iset<Key>, flags: Key -> bool, s: State<RemoteService, LocalService>) {
    && FlaggedMirrors(prefix, keys, flags, s.local)
    && (forall k :: k in s.r.remote ==> (s.r.remote[k].clusterIP == "None" <==> flags(k)))
    && (s.r.stage.Looking? || s.r.stage.Creating? || s.r.stage.Updating? ==>
          (s.r.stage.remote.clusterIP == "None" <==> flags(s.r.stage.key)))
  }

  lemma FlaggedWrite(prefix: string, keys: iset<Key>, flags: Key -> bool, s: State<RemoteService, LocalService>,
                     fault: Fault, k: Key)
    requires CollisionFree(keys) && Inv(ServiceKind(prefix, keys), s)
    requires Enabled(ServiceKind(prefix, keys), s, Write(fault)) && Flagged(prefix, keys, flags, s) && k in keys
    ensures var after := Next(ServiceKind(prefix, keys), s, Write(fault)).local;
            MirrorName(prefix, k) in after ==> (after[MirrorName(prefix, k)].clusterIP == "None" <==> flags(k))
  {
    assert s.r.stage.key in s.r.queue.processing && s.r.stage.key in s.r.seen;
    CollisionFreeNames(keys, prefix, k, s.r.stage.key);
  }

  /** Syncs delete and outsiders write elsewhere. */
  lemma FlaggedElsewhere(prefix: string, keys: iset<Key>, flags: Key -> bool, s: State<RemoteService, LocalService>,
                         a: Action<RemoteService, LocalService>, k: Key)
    requires Enabled(ServiceKind(prefix, keys), s, a) && !a.Write?
    requires FlaggedMirrors(prefix, keys, flags, s.local) && k in keys
    ensures var after := Next(ServiceKind(prefix, keys), s, a).local;
            MirrorName(prefix, k) in after ==> (after[MirrorName(prefix, k)].clusterIP == "None" <==> flags(k))
  {
    MirrorNameInSpace(prefix, k);
  }

  lemma FlaggedInside(prefix: string, keys: iset<Key>, flags: Key -> bool, s: State<RemoteService, LocalService>,
                      a: Action<RemoteService, LocalService>)
    requires Enabled(ServiceKind(prefix, keys), s, a)
    requires Flagged(prefix, keys, flags, s) && FlaggedChange(flags, a)
    ensures var r := Next(ServiceKind(prefix, keys), s, a).r;
            && (forall k :: k in r.remote ==> (r.remote[k].clusterIP == "None" <==> flags(k)))
            && (r.stage.Looking? || r.stage.Creating? || r.stage.Updating? ==>
                  (r.stage.remote.clusterIP == "None" <==> flags(r.stage.key)))
  {
  }

  lemma FlaggedStep(prefix: string, keys: iset<Key>, flags: Key -> bool, s: State<RemoteService, LocalService>,
                    a: Action<RemoteService, LocalService>)
    requires CollisionFree(keys) && Inv(ServiceKind(prefix, keys), s) && Enabled(ServiceKind(prefix, keys), s, a)
    requires Flagged(prefix, keys, flags, s) && FlaggedChange(flags, a)
    ensures Flagged(prefix, keys, flags, Next(ServiceKind(prefix, keys), s, a))
  {
    var after := Next(ServiceKind(prefix, keys), s, a);
    forall k | k in keys && MirrorName(prefix, k) in after.local
      ensures after.local[MirrorName(prefix, k)].clusterIP == "None" <==> flags(k)
    {
      if a.Write? {
        FlaggedWrite(prefix, keys, flags, s, a.fault, k);
      } else {
        FlaggedElsewhere(prefix, keys, flags, s, a, k);
      }
    }
    FlaggedInside(prefix, keys, flags, s, a);
  }

  lemma {:induction false} FlaggedRun(prefix: string, keys: iset<Key>, flags: Key -> bool,
                                      s: State<RemoteService, LocalService>,
                                      run: seq<Action<RemoteService, LocalService>>)
    requires CollisionFree(keys) && Inv(ServiceKind(prefix, keys), s) && ValidRun(ServiceKind(prefix, keys), s, run)
    requires Flagged(prefix, keys, flags, s) && forall a :: a in run ==> FlaggedChange(flags, a)
    ensures Flagged(prefix, keys, flags, Final(ServiceKind(prefix, keys), s, run))
    decreases |run|
  {
    if run != [] {
      assert run[0] in run && forall a :: a in run[1..] ==> a in run;
      MirrorKindsLawful(prefix, keys);
      FlaggedStep(prefix, keys, flags, s, run[0]);
      InvStep(ServiceKind(prefix, keys), s, run[0]);
      FlaggedRun(prefix, keys, flags, Next(ServiceKind(prefix, keys), s, run[0]), run[1..]);
    }
  }

  /** Over every run in which all definitions of a key, and what is left of it from before, are of one kind:
      a mirror is headless exactly if its remote service is. */
  lemma OneKindMirrors(prefix: string, keys: iset<Key>, flags: Key -> bool, s: State<RemoteService, LocalService>,
                       run: seq<Action<RemoteService, LocalService>>, k: Key)
    requires CollisionFree(keys) && FlaggedMirrors(prefix, keys, flags, s.local)
    requires Initial(ServiceKind(prefix, keys), s) && ValidRun(ServiceKind(prefix, keys), s, run)
    requires forall a :: a in run ==> FlaggedChange(flags, a)
    ensures var end := Final(ServiceKind(prefix, keys), s, run);
            k in end.r.remote && MirrorName(prefix, k) in end.local ==>
              (end.local[MirrorName(prefix, k)].clusterIP == "None" <==> end.r.remote[k].clusterIP == "None")
  {
    var kind := ServiceKind(prefix, keys);
    MirrorKindsLawful(prefix, keys);
    InitialInv(kind, s);
    FlaggedRun(prefix, keys, flags, s, run);
    InvRun(kind, s, run);
  }

  // --- One reconcile, in the source's own terms ------------------------------------------------------

  /** The calls before the write succeed. */
  predicate Asked(cached: bool, faults: Faults) {
    !faults.read && (cached ==> !faults.look)
  }

  /** What becomes of the local services: the one under the documented name goes with its source, is made
      like it, headless exactly if it is, or takes over its ports and keeps the rest. */
  ghost predicate MirrorsService(prefix: string, cache: map<Key, RemoteService>, k: Key, faults: Faults,
                                 before: map<string, LocalService>, after: map<string, LocalService>, ok: bool) {
    var n := prefix + "-" + k.namespace + "-73736d-" + k.name;
    var done := Asked(k in cache, faults) && !faults.write.Refused?;
    && (ok <==> done && faults.write.Fine?)
    && (!done ==> after == before)
    && (done && k !in cache ==> after == before - {n})
    && (done && k in cache ==>
          && n in after && after == before[n := after[n]]
          && after[n].ports == cache[k].ports && after[n].selector == map[]
          && (n in before ==>
                && after[n].labels == before[n].labels && after[n].annotations == before[n].annotations
                && after[n].clusterIP == before[n].clusterIP)
          && (n !in before ==>
                && after[n].labels == map["mirrored-svc" := "true", "mirror-svc-prefix-sync" := prefix]
                && after[n].annotations == map[]
                && after[n].clusterIP == if cache[k].clusterIP == "None" then "None" else ""))
  }

  /** Likewise for Endpoints, which take over the subsets. */
  ghost predicate MirrorsEndpoints(prefix: string, cache: map<Key, RemoteEndpoints>, k: Key, faults: Faults,
                                   before: map<string, LocalEndpoints>, after: map<string, LocalEndpoints>, ok: bool) {
    var n := prefix + "-" + k.namespace + "-73736d-" + k.name;
    var done := Asked(k in cache, faults) && !faults.write.Refused?;
    && (ok <==> done && faults.write.Fine?)
    && (!done ==> after == before)
    && (done && k !in cache ==> after == before - {n})
    && (done && k in cache ==>
          && n in after && after == before[n := after[n]]
          && after[n].subsets == cache[k].subsets
          && after[n].labels == map["mirrored-svc" := "true", "mirror-svc-prefix-sync" := prefix])
  }

  /** The reconciles of the step system do just that. */
  lemma ServiceReconcileExact(prefix: string, keys: iset<Key>, cache: map<Key, RemoteService>,
                              local: map<string, LocalService>, k: Key, faults: Faults)
    ensures var (after, ok) := ReconcileOnce(ServiceKind(prefix, keys), cache, local, k, faults);
            MirrorsService(prefix, cache, k, faults, local, after, ok)
  {
    NamesSpelledOut(prefix, k);
  }

  lemma EndpointsReconcileExact(prefix: string, keys: iset<Key>, cache: map<Key, RemoteEndpoints>,
                                local: map<string, LocalEndpoints>, k: Key, faults: Faults)
    ensures var (after, ok) := ReconcileOnce(EndpointsKind(prefix, keys), cache, local, k, faults);
            MirrorsEndpoints(prefix, cache, k, faults, local, after, ok)
  {
    NamesSpelledOut(prefix, k);
  }

  // --- The runner -----------------------------------------------------------------------------------

  class MirrorRunner {
    const prefix: string
    ghost const keys: iset<Key>
    const services: Api<LocalService>
    const endpoints: Api<LocalEndpoints>
    var serviceCache: map<Key, RemoteService>
    var endpointsCache: map<Key, RemoteEndpoints>

    constructor (prefix: string, ghost keys: iset<Key>, services: Api<LocalService>, endpoints: Api<LocalEndpoints>)
      ensures this.prefix == prefix && this.keys == keys && this.services == services && this.endpoints == endpoints
      ensures serviceCache == map[] && endpointsCache == map[]
    {
      this.prefix, this.keys, this.services, this.endpoints := prefix, keys, services, endpoints;
      serviceCache, endpointsCache := map[], map[];
    }

    method ReconcileService(name: string, namespace: string, faults: Faults) returns (ok: bool)
      modifies services
      ensures (services.objects, ok) ==
              ReconcileOnce(ServiceKind(prefix, keys), serviceCache, old(services.objects), Key(namespace, name),
                            faults)
      ensures MirrorsService(prefix, serviceCache, Key(namespace, name), faults, old(services.objects),
                             services.objects, ok)
    {
      ServiceReconcileExact(prefix, keys, serviceCache, services.objects, Key(namespace, name), faults);
      var mirrorName := GenerateMirrorName(prefix, namespace, name);
      if faults.read {
        return false;
      }
      if Key(namespace, name) !in serviceCache {
        var err := services.Delete(mirrorName, faults.write);
        if err.Some? && err != Some(NotFound) {
          return false;
        }
        return true;
      }
      var remoteSvc := serviceCache[Key(namespace, name)];
      var mirrorSvc := services.Get(mirrorName, faults.look);
      match mirrorSvc {
        case Err(NotFound) =>
          var svc := NewService(MirrorLabels(prefix), map[], remoteSvc.ports, IsHeadless(remoteSvc));
          var err := services.Create(mirrorName, svc, faults.write);
          return err.None?;
        case Err(_) =>
          return false;
        case Ok(svc) =>
          var err := services.Update(mirrorName, WithPorts(svc, remoteSvc.ports), faults.write);
          return err.None?;
      }
    }

    method ReconcileEndpoints(name: string, namespace: string, faults: Faults) returns (ok: bool)
      modifies endpoints
      ensures (endpoints.objects, ok) ==
              ReconcileOnce(EndpointsKind(prefix, keys), endpointsCache, old(endpoints.objects), Key(namespace, name),
                            faults)
      ensures MirrorsEndpoints(prefix, endpointsCache, Key(namespace, name), faults, old(endpoints.objects),
                               endpoints.objects, ok)
    {
      EndpointsReconcileExact(prefix, keys, endpointsCache, endpoints.objects, Key(namespace, name), faults);
      var mirrorName := GenerateMirrorName(prefix, namespace, name);
      if faults.read {
        return false;
      }
      if Key(namespace, name) !in endpointsCache {
        var err := endpoints.Delete(mirrorName, faults.write);
        if err.Some? && err != Some(NotFound) {
          return false;
        }
        return true;
      }
      var remoteEndpoints := endpointsCache[Key(namespace, name)];
      var mirrored := endpoints.Get(mirrorName, faults.look);
      match mirrored {
        case Err(NotFound) =>
          var err := endpoints.Create(mirrorName, LocalEndpoints(MirrorLabels(prefix), remoteEndpoints.subsets),
                                      faults.write);
          return err.None?;
        case Err(_) =>
          return false;
        case Ok(_) =>
          var err := endpoints.Update(mirrorName, LocalEndpoints(MirrorLabels(prefix), remoteEndpoints.subsets),
                                      faults.write);
          return err.None?;
      }
    }

    lemma ListedNames(stored: seq<Key>, names: seq<string>)
      requires forall k :: k in stored <==> k in serviceCache
      requires forall n :: n in names <==> exists j :: 0 <= j < |stored| && n == MirrorName(prefix, stored[j])
      ensures forall n :: n in names <==> n in Names(ServiceKind(prefix, keys), serviceCache.Keys)
    {
      forall n | n in names ensures n in Names(ServiceKind(prefix, keys), serviceCache.Keys) {
        var j :| 0 <= j < |stored| && n == MirrorName(prefix, stored[j]);
        assert stored[j] in serviceCache.Keys && ServiceKind(prefix, keys).name(stored[j]) == n;
      }
      forall n | n in Names(ServiceKind(prefix, keys), serviceCache.Keys) ensures n in names {
        var k :| k in serviceCache.Keys && ServiceKind(prefix, keys).name(k) == n;
        assert k in stored;
      }
    }

    /** `stored` and `currSvcs` are what the two watchers list, in any order. */
    method ServiceSync(stored: seq<Key>, currSvcs: seq<string>, faults: nat -> Fault) returns (ok: bool)
      requires forall k :: k in stored <==> k in serviceCache
      modifies services
      ensures (services.objects, ok) ==
              SyncFrom(Names(ServiceKind(prefix, keys), serviceCache.Keys), currSvcs, 0, old(services.objects), faults)
      ensures Sweeps(set k | k in serviceCache :: MirrorName(prefix, k), currSvcs, old(services.objects), faults,
                     services.objects, ok)
    {
      ghost var keep := Names(ServiceKind(prefix, keys), serviceCache.Keys);
      assert keep == set k | k in serviceCache :: MirrorName(prefix, k);
      SyncSweeps(keep, currSvcs, services.objects, faults);
      var mirrorSvcList: seq<string> := [];
      for i := 0 to |stored|
        invariant forall n :: n in mirrorSvcList <==> exists j :: 0 <= j < i && n == MirrorName(prefix, stored[j])
      {
        mirrorSvcList := mirrorSvcList + [GenerateMirrorName(prefix, stored[i].namespace, stored[i].name)];
      }
      ListedNames(stored, mirrorSvcList);
      for i := 0 to |currSvcs|
        invariant SyncFrom(keep, currSvcs, i, services.objects, faults) ==
                    SyncFrom(keep, currSvcs, 0, old(services.objects), faults)
      {
        var _, found := InSlice(mirrorSvcList, currSvcs[i]);
        if !found {
          assert currSvcs[i] !in services.objects ==> services.objects - {currSvcs[i]} == services.objects;
          var err := services.Delete(currSvcs[i], faults(i));
          if err.Some? {
            return false;
          }
        }
      }
      return true;
    }
  }
}
