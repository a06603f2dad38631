/** One cluster's runner for global services and their EndpointSlices (global_runner.go). */
module GlobalRunners {
  import opened Wrappers
  import opened Naming
  import opened Lists
  import opened GlobalStore
  import opened Controller
  import opened Kube
  import Aggregation

  datatype EndpointPort = EndpointPort(name: string, protocol: string, port: int)

  datatype Endpoint = Endpoint(addresses: seq<string>, ready: bool, zone: Option<string>, forZones: Option<seq<string>>)

  datatype RemoteSlice = RemoteSlice(labels: map<string, string>, addressType: string, endpoints: seq<Endpoint>,
                                     ports: seq<EndpointPort>)

  datatype LocalSlice = LocalSlice(labels: map<string, string>, addressType: string, endpoints: seq<Endpoint>,
                                   ports: seq<EndpointPort>)

  const SERVICE_NAME_LABEL := "kubernetes.io/service-name"
  const MANAGED_BY_LABEL := "endpointslice.kubernetes.io/managed-by"
  const MIRRORED_LABEL := "mirrored-endpoint-slice"
  const SYNC_NAME_LABEL := "mirror-endpointslice-sync-name"

  function SyncMirrorLabels(runner: string): map<string, string> {
    map[MIRRORED_LABEL := "true", SYNC_NAME_LABEL := runner]
  }

  function SliceLabels(runner: string, target: string): map<string, string> {
    SyncMirrorLabels(runner)[SERVICE_NAME_LABEL := target][MANAGED_BY_LABEL := "semaphore-service-mirror"]
  }

  /** Remote endpoints get a zone no node is in, local ones the configured zones. */
  function Hinted(local: bool, zones: seq<string>, e: Endpoint): Endpoint {
    if local then e.(forZones := Some(zones)) else e.(zone := Some("remote"), forZones := Some(["remote"]))
  }

  function AllHinted(local: bool, zones: seq<string>, endpoints: seq<Endpoint>): (hinted: seq<Endpoint>)
    ensures |hinted| == |endpoints|
    ensures forall i :: 0 <= i < |hinted| ==>
              && hinted[i].addresses == endpoints[i].addresses && hinted[i].ready == endpoints[i].ready
              && hinted[i].forZones == Some(if local then zones else ["remote"])
              && hinted[i].zone == if local then endpoints[i].zone else Some("remote")
  {
    seq(|endpoints|, i requires 0 <= i < |endpoints| => Hinted(local, zones, endpoints[i]))
  }

  function TargetService(slice: RemoteSlice): string {
    if SERVICE_NAME_LABEL in slice.labels then slice.labels[SERVICE_NAME_LABEL] else ""
  }

  function Mirrored(runner: string, local: bool, zones: seq<string>, k: Key, slice: RemoteSlice): LocalSlice {
    LocalSlice(
      SliceLabels(runner, GenerateGlobalServiceName(TargetService(slice), k.namespace)),
      slice.addressType, AllHinted(local, zones, slice.endpoints), slice.ports)
  }

  // --- Slices as an instance of the step system -------------------------------------------------------

  ghost predicate OwnsSliceName(keys: iset<Key>, n: string) {
    exists k :: k in keys && n == GenerateGlobalEndpointSliceName(k.name)
  }

  ghost function SliceKind(runner: string, local: bool, zones: seq<string>,
                           keys: iset<Key>): Kind<RemoteSlice, LocalSlice> {
    Kind(
      (k: Key) => k in keys,
      (k: Key) => GenerateGlobalEndpointSliceName(k.name),
      (n: string) => OwnsSliceName(keys, n),
      (v: RemoteSlice) => SERVICE_NAME_LABEL in v.labels,
      (k: Key, v: RemoteSlice) => Mirrored(runner, local, zones, k, v),
      (k: Key, l: LocalSlice, v: RemoteSlice) => Mirrored(runner, local, zones, k, v),
      (k: Key, l: LocalSlice, v: RemoteSlice) => l == Mirrored(runner, local, zones, k, v),
      (l: LocalSlice) => HasLabels(l.labels, SyncMirrorLabels(runner)))
  }

  /** Slice mirrors drop the namespace and rely on slice names being distinct. */
  ghost predicate SliceNamesDistinct(keys: iset<Key>) {
    forall k1, k2 :: k1 in keys && k2 in keys && k1.name == k2.name ==> k1 == k2
  }

  lemma SliceLabelsCarryBoth(runner: string, target: string)
    ensures HasLabels(SliceLabels(runner, target), SyncMirrorLabels(runner))
    ensures SliceLabels(runner, target)[SERVICE_NAME_LABEL] == target
    ensures SliceLabels(runner, target)[SYNC_NAME_LABEL] == runner
  {
  }

  lemma SameSliceName(a: string, b: string)
    ensures GenerateGlobalEndpointSliceName(a) == GenerateGlobalEndpointSliceName(b) <==> a == b
  {
    assert GenerateGlobalEndpointSliceName(a)[3..] == a && GenerateGlobalEndpointSliceName(b)[3..] == b;
  }

  /** The slice kind meets the laws of the step system exactly when the slice names are distinct. */
  lemma SliceKindLawful(runner: string, local: bool, zones: seq<string>, keys: iset<Key>)
    ensures Lawful(SliceKind(runner, local, zones, keys)) <==> SliceNamesDistinct(keys)
  {
    var kind := SliceKind(runner, local, zones, keys);
    forall k1: Key, k2: Key ensures kind.name(k1) == kind.name(k2) <==> k1.name == k2.name {
      SameSliceName(k1.name, k2.name);
    }
    forall k, v ensures kind.labelled(kind.create(k, v)) {
      SliceLabelsCarryBoth(runner, GenerateGlobalServiceName(TargetService(v), k.namespace));
    }
    if !SliceNamesDistinct(keys) {
      var k1, k2 :| k1 in keys && k2 in keys && k1.name == k2.name && k1 != k2;
      assert kind.admits(k1) && kind.admits(k2) && kind.name(k1) == kind.name(k2);
    }
  }

  // --- One reconcile, in the source's own terms ------------------------------------------------------

  /** A local slice has the ports and the address type of the remote one, its endpoints one by one with the
      zones and hints they are to have, and exactly the labels of a mirror aimed at the global service. */
  ghost predicate MirrorsRemote(runner: string, local: bool, zones: seq<string>, k: Key, remote: RemoteSlice,
                                l: LocalSlice) {
    && l.ports == remote.ports && l.addressType == remote.addressType
    && |l.endpoints| == |remote.endpoints|
    && (forall i :: 0 <= i < |l.endpoints| ==>
          && l.endpoints[i].addresses == remote.endpoints[i].addresses
          && l.endpoints[i].ready == remote.endpoints[i].ready
          && l.endpoints[i].forZones == Some(if local then zones else ["remote"])
          && l.endpoints[i].zone == if local then remote.endpoints[i].zone else Some("remote"))
    && "kubernetes.io/service-name" in remote.labels
    && l.labels == map["mirrored-endpoint-slice" := "true",
                       "mirror-endpointslice-sync-name" := runner,
                       "kubernetes.io/service-name" :=
                         "gl-" + k.namespace + "-73736d-" + remote.labels["kubernetes.io/service-name"],
                       "endpointslice.kubernetes.io/managed-by" := "semaphore-service-mirror"]
  }

  /** What becomes of the local slices: the one under the prefixed name goes with its source or is made like
      it; a source without the service-name label is an error before anything is called. */
  ghost predicate MirrorsSlice(runner: string, local: bool, zones: seq<string>, cache: map<Key, RemoteSlice>, k: Key,
                               faults: Faults, before: map<string, LocalSlice>, after: map<string, LocalSlice>,
                               ok: bool) {
    var n := "gl-" + k.name;
    var asked := !faults.read && (k in cache ==> "kubernetes.io/service-name" in cache[k].labels && !faults.look);
    && (ok <==> asked && faults.write.Fine?)
    && (!asked || faults.write.Refused? ==> after == before)
    && (asked && !faults.write.Refused? && k !in cache ==> after == before - {n})
    && (asked && !faults.write.Refused? && k in cache ==>
          n in after && after == before[n := after[n]] && MirrorsRemote(runner, local, zones, k, cache[k], after[n]))
  }

  lemma MirroredExact(runner: string, local: bool, zones: seq<string>, k: Key, slice: RemoteSlice)
    requires SERVICE_NAME_LABEL in slice.labels
    ensures MirrorsRemote(runner, local, zones, k, slice, Mirrored(runner, local, zones, k, slice))
  {
    NamesSpelledOut("gl", Key(k.namespace, TargetService(slice)));
    SliceLabelsCarryBoth(runner, GenerateGlobalServiceName(TargetService(slice), k.namespace));
  }

  lemma SliceReconcileExact(runner: string, local: bool, zones: seq<string>, keys: iset<Key>,
                            cache: map<Key, RemoteSlice>, slices: map<string, LocalSlice>, k: Key, faults: Faults)
    ensures var (after, ok) := ReconcileOnce(SliceKind(runner, local, zones, keys), cache, slices, k, faults);
            MirrorsSlice(runner, local, zones, cache, k, faults, slices, after, ok)
  {
    if k in cache && SERVICE_NAME_LABEL in cache[k].labels {
      MirroredExact(runner, local, zones, k, cache[k]);
    }
  }

  /** Over every run of one runner: each key ever seen is pending or its mirror is like its source, and gone
      if the source is; and at a tidy rest the slices carrying the runner's labels are exactly those. */
  lemma MirroredSlicesExact(runner: string, local: bool, zones: seq<string>, keys: iset<Key>,
                            s: State<RemoteSlice, LocalSlice>, run: seq<Action<RemoteSlice, LocalSlice>>)
    requires SliceNamesDistinct(keys)
    requires Controller.Initial(SliceKind(runner, local, zones, keys), s)
    requires ValidRun(SliceKind(runner, local, zones, keys), s, run)
    ensures var end := Final(SliceKind(runner, local, zones, keys), s, run);
            && (forall k :: k in end.r.seen ==>
                  || Pending(end.r, k)
                  || (k !in end.r.remote && GenerateGlobalEndpointSliceName(k.name) !in end.local)
                  || (k in end.r.remote && GenerateGlobalEndpointSliceName(k.name) in end.local
                      && MirrorsRemote(runner, local, zones, k, end.r.remote[k],
                                       end.local[GenerateGlobalEndpointSliceName(k.name)])))
            && (end.r.tidy && Quiescent(end.r) ==>
                  forall n :: n in end.local && HasLabels(end.local[n].labels, SyncMirrorLabels(runner)) <==>
                    exists k :: k in end.r.remote && n == GenerateGlobalEndpointSliceName(k.name))
  {
    var kind := SliceKind(runner, local, zones, keys);
    SliceKindLawful(runner, local, zones, keys);
    var end := Final(kind, s, run);
    forall k | k in end.r.seen && !Pending(end.r, k)
      ensures Controller.Settled(kind, end, k)
      ensures k in end.r.remote ==>
                MirrorsRemote(runner, local, zones, k, end.r.remote[k],
                              Mirrored(runner, local, zones, k, end.r.remote[k]))
    {
      NoLostUpdate(kind, s, run, k);
      if k in end.r.remote {
        MirroredExact(runner, local, zones, k, end.r.remote[k]);
      }
    }
    if end.r.tidy && Quiescent(end.r) {
      StartupExact(kind, s, run);
      forall k | k in end.r.remote
        ensures GenerateGlobalEndpointSliceName(k.name) in Names(kind, end.r.remote.Keys)
      {
        assert kind.name(k) in Names(kind, end.r.remote.Keys);
      }
    }
  }

  /** In any state that a runner reaches, a slice without the service-name label that comes into its cache
      keeps it from ever coming to rest. */
  lemma UnlabelledSliceNeverRests(runner: string, local: bool, zones: seq<string>, keys: iset<Key>,
                                  s: State<RemoteSlice, LocalSlice>, before: seq<Action<RemoteSlice, LocalSlice>>,
                                  k: Key, slice: RemoteSlice)
    requires SliceNamesDistinct(keys) && k in keys && SERVICE_NAME_LABEL !in slice.labels
    requires Controller.Initial(SliceKind(runner, local, zones, keys), s)
    requires ValidRun(SliceKind(runner, local, zones, keys), s, before)
    ensures var kind := SliceKind(runner, local, zones, keys);
            !CanDrain(kind, Next(kind, Final(kind, s, before), CacheSet(k, slice)))
  {
    var kind := SliceKind(runner, local, zones, keys);
    SliceKindLawful(runner, local, zones, keys);
    InitialInv(kind, s);
    InvRun(kind, s, before);
    var mid := Final(kind, s, before);
    InvStep(kind, mid, CacheSet(k, slice));
    var after := Next(kind, mid, CacheSet(k, slice));
    assert k in after.r.remote && !kind.valid(after.r.remote[k]);
    DrainsExactlyWhenValid(kind, after);
  }

  // --- The runner ---------------------------------------------------------------------------------------

  class GlobalRunner {
    const name: string
    const local: bool
    const zones: seq<string>
    const selector: map<string, string>
    ghost const keys: iset<Key>
    const globalServiceStore: GlobalServiceStore
    const services: Api<LocalService>
    const slices: Api<LocalSlice>
    var serviceCache: map<Key, RemoteService>
    var sliceCache: map<Key, RemoteSlice>
    var syncMirrorLabels: map<string, string>

    /** The base labels are still there, whatever was written into the map beside them. */
    ghost predicate Valid()
      reads this
    {
      && HasLabels(syncMirrorLabels, SyncMirrorLabels(name))
      && syncMirrorLabels.Keys <= {MIRRORED_LABEL, SYNC_NAME_LABEL, SERVICE_NAME_LABEL, MANAGED_BY_LABEL}
    }

    ghost function Kind(): Kind<RemoteSlice, LocalSlice> {
      SliceKind(name, local, zones, keys)
    }

    constructor (name: string, local: bool, zones: seq<string>, selector: map<string, string>, ghost keys: iset<Key>,
                 store: GlobalServiceStore, services: Api<LocalService>, slices: Api<LocalSlice>)
      ensures Valid()
      ensures this.name == name && this.local == local && this.zones == zones && this.selector == selector
              && this.keys == keys
      ensures globalServiceStore == store && this.services == services && this.slices == slices
      ensures serviceCache == map[] && sliceCache == map[]
    {
      this.name, this.local, this.zones, this.selector, this.keys := name, local, zones, selector, keys;
      globalServiceStore, this.services, this.slices := store, services, slices;
      serviceCache, sliceCache := map[], map[];
      syncMirrorLabels := SyncMirrorLabels(name);
    }

    method ReconcileGlobalService(name: string, namespace: string, faults: Faults)
        returns (verdict: Aggregation.Verdict)
      requires globalServiceStore.Valid()
      requires forall k :: k in serviceCache ==> serviceCache[k].key == k
      modifies globalServiceStore, globalServiceStore.Entries(), services
      ensures globalServiceStore.Valid() && fresh(globalServiceStore.Entries() - old(globalServiceStore.Entries()))
      ensures var k := Key(namespace, name);
              Aggregation.Effect(globalServiceStore.View(), services.objects, verdict) ==
              Aggregation.ReconcileGlobal(selector, old(globalServiceStore.View()), old(services.objects), this.name, k,
                                          if k in serviceCache then Some(serviceCache[k]) else None, faults)
    {
      var globalSvcName := GenerateGlobalServiceName(name, namespace);
      var k := Key(namespace, name);
      if faults.read {
        return Aggregation.Failed;
      }
      var remoteSvc := if k in serviceCache then Some(serviceCache[k]) else None;
      ghost var called := Apply(globalServiceStore.View(), Aggregation.CallOf(selector, this.name, k, remoteSvc));
      ghost var expected := Aggregation.ReconcileGlobal(selector, globalServiceStore.View(), services.objects,
                                                        this.name, k, remoteSvc, faults);
      Aggregation.TwoHalves(selector, globalServiceStore.View(), services.objects, this.name, k, remoteSvc, faults);
      var stored := UpdateStore(k, remoteSvc);
      if !stored {
        return Aggregation.Failed;
      }
      var gsvc := globalServiceStore.Get(name, namespace);
      ghost var local := services.objects;
      assert globalServiceStore.View() == called;
      if gsvc.None? {
        verdict := RetractGlobalService(globalSvcName, remoteSvc, faults);
      } else {
        Aggregation.PublishReadsOneEntry(called, services.objects, globalSvcName, remoteSvc, faults);
        verdict := PublishGlobalService(globalSvcName, gsvc.value, remoteSvc, faults);
        assert expected == Aggregation.Publish(called, local, globalSvcName, remoteSvc, faults);
      }
      assert Aggregation.Effect(called, services.objects, verdict) == expected;
    }

    /** An entry that is gone takes its local service with it; one that an add should have left there
        is an error. */
    method RetractGlobalService(globalSvcName: string, remoteSvc: Option<RemoteService>, faults: Faults)
      returns (verdict: Aggregation.Verdict)
      modifies services
      ensures globalServiceStore.View() == old(globalServiceStore.View())
      ensures remoteSvc.Some? ==> verdict.Failed? && services.objects == old(services.objects)
      ensures remoteSvc.None? ==>
                Aggregation.Effect(map[], services.objects, verdict) ==
                Aggregation.Retract(map[], old(services.objects), globalSvcName, faults.write)
    {
      if remoteSvc.Some? {
        return Aggregation.Failed;
      }
      var err := services.Delete(globalSvcName, faults.write);
      return if err.Some? && err != Some(NotFound) then Aggregation.Failed else Aggregation.Reconciled;
    }

    /** The first half of the reconcile: the cluster is taken off or put on the entry. */
    method UpdateStore(k: Key, remoteSvc: Option<RemoteService>) returns (stored: bool)
      requires globalServiceStore.Valid() && (remoteSvc.Some? ==> remoteSvc.value.key == k)
      modifies globalServiceStore, globalServiceStore.Entries()
      ensures globalServiceStore.Valid() && fresh(globalServiceStore.Entries() - old(globalServiceStore.Entries()))
      ensures var call := Aggregation.CallOf(selector, name, k, remoteSvc);
              && globalServiceStore.View() == Apply(old(globalServiceStore.View()), call)
              && stored == Succeeds(old(globalServiceStore.View()), call)
    {
      match remoteSvc {
        case None =>
          var _ := globalServiceStore.DeleteClusterServiceTarget(k.name, k.namespace, name);
          return true;
        case Some(svc) =>
          var setServiceTopologyHints := MatchSelector(selector, svc.labels);
          var added := globalServiceStore.AddOrUpdateClusterServiceTarget(svc, name, setServiceTopologyHints);
          return added.Ok?;
      }
    }

    /** The second half of the reconcile: the local service of an entry is created or updated. */
    method PublishGlobalService(globalSvcName: string, gsvc: GlobalService, remoteSvc: Option<RemoteService>,
                                faults: Faults)
      returns (verdict: Aggregation.Verdict)
      modifies services
      ensures globalServiceStore.View() == old(globalServiceStore.View())
      ensures Aggregation.Effect(map[globalSvcName := gsvc.View()], services.objects, verdict) ==
              Aggregation.Publish(map[globalSvcName := gsvc.View()], old(services.objects), globalSvcName, remoteSvc,
                                  faults)
    {
      var globalSvc := services.Get(globalSvcName, faults.look);
      match globalSvc {
        case Err(NotFound) =>
          if remoteSvc.None? {
            return Aggregation.Crashed;
          }
          var created := NewService(gsvc.labels, gsvc.annotations, remoteSvc.value.ports, gsvc.headless);
          var err := services.Create(globalSvcName, created, faults.write);
          return if err.Some? then Aggregation.Failed else Aggregation.Reconciled;
        case Err(_) =>
          return Aggregation.Failed;
        case Ok(found) =>
          var updated := WithPorts(found.(annotations := gsvc.annotations), gsvc.ports);
          var err := services.Update(globalSvcName, updated, faults.write);
          return if err.Some? then Aggregation.Failed else Aggregation.Reconciled;
      }
    }

    /** Writes into the runner's own base map and hands that map out. */
    method GenerateEndpointSliceLabels(targetService: string) returns (labels: map<string, string>)
      requires Valid()
      modifies this`syncMirrorLabels
      ensures Valid() && labels == SliceLabels(name, targetService)
    {
      SliceLabelsCarryBoth(name, targetService);
      syncMirrorLabels := syncMirrorLabels[SERVICE_NAME_LABEL := targetService];
      syncMirrorLabels := syncMirrorLabels[MANAGED_BY_LABEL := "semaphore-service-mirror"];
      labels := syncMirrorLabels;
      assert SERVICE_NAME_LABEL[0] != MANAGED_BY_LABEL[0];
    }

    method EnsureEndpointSliceZones(endpoints: seq<Endpoint>) returns (es: seq<Endpoint>)
      ensures es == AllHinted(local, zones, endpoints)
    {
      es := [];
      if !local {
        for i := 0 to |endpoints|
          invariant es == AllHinted(local, zones, endpoints)[..i]
        {
          es := es + [endpoints[i].(zone := Some("remote"), forZones := Some(["remote"]))];
        }
        return;
      }
      for i := 0 to |endpoints|
        invariant es == AllHinted(local, zones, endpoints)[..i]
      {
        es := es + [endpoints[i].(forZones := Some(zones))];
      }
    }

    method CreateEndpointSlice(mirrorName: string, targetService: string, remote: RemoteSlice, fault: Fault)
        returns (ok: bool)
      requires Valid()
      modifies slices, this`syncMirrorLabels
      ensures Valid()
      ensures var slice := LocalSlice(SliceLabels(name, targetService), remote.addressType,
                                      AllHinted(local, zones, remote.endpoints), remote.ports);
              slices.objects == if fault.Refused? || mirrorName in old(slices.objects) then old(slices.objects)
                                else old(slices.objects)[mirrorName := slice]
      ensures ok <==> fault.Fine? && mirrorName !in old(slices.objects)
    {
      var labels := GenerateEndpointSliceLabels(targetService);
      var endpoints := EnsureEndpointSliceZones(remote.endpoints);
      var err := slices.Create(mirrorName, LocalSlice(labels, remote.addressType, endpoints, remote.ports), fault);
      return err.None?;
    }

    method UpdateEndpointSlice(mirrorName: string, targetService: string, remote: RemoteSlice, fault: Fault)
        returns (ok: bool)
      requires Valid()
      modifies slices, this`syncMirrorLabels
      ensures Valid()
      ensures var slice := LocalSlice(SliceLabels(name, targetService), remote.addressType,
                                      AllHinted(local, zones, remote.endpoints), remote.ports);
              slices.objects == if fault.Refused? || mirrorName !in old(slices.objects) then old(slices.objects)
                                else old(slices.objects)[mirrorName := slice]
      ensures ok <==> fault.Fine? && mirrorName in old(slices.objects)
    {
      var labels := GenerateEndpointSliceLabels(targetService);
      var endpoints := EnsureEndpointSliceZones(remote.endpoints);
      var err := slices.Update(mirrorName, LocalSlice(labels, remote.addressType, endpoints, remote.ports), fault);
      return err.None?;
    }

    method ReconcileEndpointSlice(name: string, namespace: string, faults: Faults) returns (ok: bool)
      requires Valid()
      modifies slices, this`syncMirrorLabels
      ensures Valid()
      ensures (slices.objects, ok) ==
                ReconcileOnce(Kind(), sliceCache, old(slices.objects), Key(namespace, name), faults)
      ensures MirrorsSlice(this.name, local, zones, sliceCache, Key(namespace, name), faults, old(slices.objects),
                           slices.objects, ok)
    {
      SliceReconcileExact(this.name, local, zones, keys, sliceCache, slices.objects, Key(namespace, name), faults);
      var mirrorName := GenerateGlobalEndpointSliceName(name);
      if faults.read {
        return false;
      }
      if Key(namespace, name) !in sliceCache {
        var err := slices.Delete(mirrorName, faults.write);
        return !(err.Some? && err != Some(NotFound));
      }
      var remoteSlice := sliceCache[Key(namespace, name)];
      if SERVICE_NAME_LABEL !in remoteSlice.labels {
        return false;
      }
      assert AfterRead(Kind(), sliceCache, Key(namespace, name), false) == Looking(Key(namespace, name), remoteSlice);
      var targetGlobalService := GenerateGlobalServiceName(remoteSlice.labels[SERVICE_NAME_LABEL], namespace);
      var mirror := slices.Get(mirrorName, faults.look);
      match mirror {
        case Err(NotFound) =>
          ok := CreateEndpointSlice(mirrorName, targetGlobalService, remoteSlice, faults.write);
        case Err(_) =>
          return false;
        case Ok(_) =>
          ok := UpdateEndpointSlice(mirrorName, targetGlobalService, remoteSlice, faults.write);
      }
    }

    lemma ListedNames(stored: seq<Key>, names: seq<string>)
      requires forall k :: k in stored <==> k in sliceCache
      requires forall n :: n in names <==>
                 exists j :: 0 <= j < |stored| && n == GenerateGlobalEndpointSliceName(stored[j].name)
      ensures forall n :: n in names <==> n in Names(Kind(), sliceCache.Keys)
    {
      forall n | n in names ensures n in Names(Kind(), sliceCache.Keys) {
        var j :| 0 <= j < |stored| && n == GenerateGlobalEndpointSliceName(stored[j].name);
        assert stored[j] in sliceCache.Keys && Kind().name(stored[j]) == n;
      }
      forall n | n in Names(Kind(), sliceCache.Keys) ensures n in names {
        var k :| k in sliceCache.Keys && Kind().name(k) == n;
        assert k in stored;
      }
    }

    /** `stored` and `currSlices` are what the two watchers list, in any order. The second one lists the
        mirror namespace of the watched cluster, which is the local one only for the local runner. */
    method EndpointSliceSync(stored: seq<Key>, currSlices: seq<string>, faults: nat -> Fault) returns (ok: bool)
      requires forall k :: k in stored <==> k in sliceCache
      modifies slices
      ensures (slices.objects, ok) ==
              SyncFrom(Names(Kind(), sliceCache.Keys), currSlices, 0, old(slices.objects), faults)
      ensures Sweeps(set k | k in sliceCache :: GenerateGlobalEndpointSliceName(k.name), currSlices,
                     old(slices.objects), faults, slices.objects, ok)
    {
      ghost var keep := Names(Kind(), sliceCache.Keys);
      assert keep == set k | k in sliceCache :: GenerateGlobalEndpointSliceName(k.name);
      SyncSweeps(keep, currSlices, slices.objects, faults);
      var mirrorList: seq<string> := [];
      for i := 0 to |stored|
        invariant forall n :: n in mirrorList <==>
                    exists j :: 0 <= j < i && n == GenerateGlobalEndpointSliceName(stored[j].name)
      {
        mirrorList := mirrorList + [GenerateGlobalEndpointSliceName(stored[i].name)];
      }
      ListedNames(stored, mirrorList);
      for i := 0 to |currSlices|
        invariant SyncFrom(keep, currSlices, i, slices.objects, faults) ==
                    SyncFrom(keep, currSlices, 0, old(slices.objects), faults)
      {
        var _, found := InSlice(mirrorList, currSlices[i]);
        if !found {
          assert currSlices[i] !in slices.objects ==> slices.objects - {currSlices[i]} == slices.objects;
          var err := slices.Delete(currSlices[i], faults(i));
          if err.Some? {
            return false;
          }
        }
      }
      return true;
    }
  }
}
