/** What the operator is for: a global service ends up with the endpoints of all clusters
    (README.md, "Global Services"). */
module Conservation {
  import opened Naming
  import opened Controller
  import opened Kube
  import opened Fleets
  import opened GlobalRunners
  import opened QueuedRunners
  import Aggregation

  // --- Sums over finite maps ------------------------------------------------------------------------

  ghost function Total<X(!new)>(m: map<X, multiset<string>>): multiset<string>
    decreases |m|
  {
    if m == map[] then multiset{}
    else
      var x :| x in m;
      m[x] + Total(m - {x})
  }

  lemma {:induction false} TotalSplits<X(!new)>(m: map<X, multiset<string>>, x: X)
    requires x in m
    ensures Total(m) == m[x] + Total(m - {x})
    decreases |m|
  {
    var y :| y in m && Total(m) == m[y] + Total(m - {y});
    if y != x {
      TotalSplits(m - {y}, x);
      TotalSplits(m - {x}, y);
      assert m - {y} - {x} == m - {x} - {y};
    }
  }

  /** A one-to-one renaming of the keys of one map onto those of another that keeps the values. */
  ghost predicate Renames<X(!new), Y(!new)>(a: map<X, multiset<string>>, b: map<Y, multiset<string>>, h: map<X, Y>) {
    && h.Keys == a.Keys
    && (forall x :: x in h ==> h[x] in b && b[h[x]] == a[x])
    && (forall x1, x2 :: x1 in h && x2 in h && h[x1] == h[x2] ==> x1 == x2)
    && (forall y :: y in b ==> exists x :: x in h && h[x] == y)
  }

  lemma RenamingShrinks<X(!new), Y(!new)>(a: map<X, multiset<string>>, b: map<Y, multiset<string>>, h: map<X, Y>, x: X)
    requires Renames(a, b, h) && x in h
    ensures Renames(a - {x}, b - {h[x]}, h - {x})
  {
    forall y | y in b - {h[x]} ensures exists x' :: x' in h - {x} && (h - {x})[x'] == y {
      var x' :| x' in h && h[x'] == y;
      assert x' in h - {x};
    }
  }

  lemma {:induction false} TotalRenamed<X(!new), Y(!new)>(a: map<X, multiset<string>>, b: map<Y, multiset<string>>,
                                                          h: map<X, Y>)
    requires Renames(a, b, h)
    ensures Total(a) == Total(b)
    decreases |a|
  {
    if a == map[] {
      assert b == map[];
    } else {
      var x :| x in a;
      TotalSplits(a, x);
      TotalSplits(b, h[x]);
      RenamingShrinks(a, b, h, x);
      TotalRenamed(a - {x}, b - {h[x]}, h - {x});
    }
  }

  lemma UnionWithout<X(!new)>(a: map<X, multiset<string>>, b: map<X, multiset<string>>, x: X)
    requires a.Keys !! b.Keys && x in a
    ensures Total(a + b) == a[x] + Total((a - {x}) + b) && (a - {x}).Keys !! b.Keys
  {
    TotalSplits(a + b, x);
    assert (a + b) - {x} == (a - {x}) + b;
  }

  lemma Regrouped(p: multiset<string>, q: multiset<string>, r: multiset<string>)
    ensures p + (q + r) == (p + q) + r
  {
  }

  lemma {:induction false} TotalUnion<X(!new)>(a: map<X, multiset<string>>, b: map<X, multiset<string>>)
    requires a.Keys !! b.Keys
    ensures Total(a + b) == Total(a) + Total(b)
    decreases |a|
  {
    if x :| x in a {
      UnionWithout(a, b, x);
      TotalSplits(a, x);
      TotalUnion(a - {x}, b);
      Regrouped(a[x], Total(a - {x}), Total(b));
    } else {
      assert a == map[] && a + b == b;
      assert Total(a) == multiset{};
    }
  }

  // --- Endpoints on both sides ------------------------------------------------------------------------

  function Addresses(endpoints: seq<Endpoint>): multiset<string> {
    if endpoints == [] then multiset{} else multiset(endpoints[0].addresses) + Addresses(endpoints[1..])
  }

  lemma {:induction false} HintsKeepAddresses(local: bool, zones: seq<string>, endpoints: seq<Endpoint>)
    ensures Addresses(AllHinted(local, zones, endpoints)) == Addresses(endpoints)
  {
    if endpoints != [] {
      HintsKeepAddresses(local, zones, endpoints[1..]);
      assert AllHinted(local, zones, endpoints)[1..] == AllHinted(local, zones, endpoints[1..]);
    }
  }

  datatype Source = Source(cluster: string, key: Key)

  type SliceFleet = Fleet<RemoteSlice, LocalSlice>

  function SourceOf(f: SliceFleet, s: Source): RemoteSlice
    requires s.cluster in f.runners && s.key in f.runners[s.cluster].remote
  {
    f.runners[s.cluster].remote[s.key]
  }

  function AllSources(f: SliceFleet): set<Source> {
    set c, k | c in f.runners && k in f.runners[c].remote :: Source(c, k)
  }

  /** The service a cached slice belongs to. */
  function ServiceOf(f: SliceFleet, s: Source): Key
    requires s in AllSources(f)
  {
    Key(s.key.namespace, TargetService(SourceOf(f, s)))
  }

  /** The addresses of each cached slice, of any cluster, that belongs to a service. */
  function RemoteEndpoints(f: SliceFleet, service: Key): map<Source, multiset<string>> {
    map s | s in AllSources(f) && SERVICE_NAME_LABEL in SourceOf(f, s).labels && ServiceOf(f, s) == service ::
      Addresses(SourceOf(f, s).endpoints)
  }

  predicate Targets(l: LocalSlice, name: string) {
    SERVICE_NAME_LABEL in l.labels && l.labels[SERVICE_NAME_LABEL] == name
  }

  /** The addresses of each local slice labelled for a global service. */
  function LocalEndpoints(f: SliceFleet, name: string): map<string, multiset<string>> {
    map n | n in f.local && Targets(f.local[n], name) :: Addresses(f.local[n].endpoints)
  }

  // --- The runners ------------------------------------------------------------------------------------

  datatype SliceConfig = SliceConfig(localCluster: string, zones: seq<string>, ghost keys: map<string, iset<Key>>)

  ghost function SliceKinds(cfg: SliceConfig): Kinds<RemoteSlice, LocalSlice> {
    map c | c in cfg.keys :: SliceKind(c, c == cfg.localCluster, cfg.zones, cfg.keys[c])
  }

  /** Objects of others are neither labelled as mirrors nor aimed at a global service. */
  ghost function OtherSlice(): LocalSlice -> bool {
    (l: LocalSlice) => MIRRORED_LABEL !in l.labels
        && (SERVICE_NAME_LABEL in l.labels ==> !InSpace(GLOBAL_PREFIX, l.labels[SERVICE_NAME_LABEL]))
  }

  ghost predicate DistinctAcrossClusters(keys: map<string, iset<Key>>) {
    forall c, d, k1, k2 :: c in keys && d in keys && k1 in keys[c] && k2 in keys[d] && k1.name == k2.name ==>
        c == d && k1 == k2
  }

  lemma LabelsTell(c: string, labels: map<string, string>)
    requires HasLabels(labels, SyncMirrorLabels(c))
    ensures MIRRORED_LABEL in labels && SYNC_NAME_LABEL in labels && labels[SYNC_NAME_LABEL] == c
  {
    assert MIRRORED_LABEL in SyncMirrorLabels(c) && SYNC_NAME_LABEL in SyncMirrorLabels(c);
    assert MIRRORED_LABEL[6] != SYNC_NAME_LABEL[6];
  }

  lemma NamesKeptApart(cfg: SliceConfig, c: string, d: string, n: string)
    requires DistinctAcrossClusters(cfg.keys) && c in cfg.keys && d in cfg.keys && c != d
    requires OwnsSliceName(cfg.keys[c], n)
    ensures !OwnsSliceName(cfg.keys[d], n)
  {
    if OwnsSliceName(cfg.keys[d], n) {
      var k1 :| k1 in cfg.keys[c] && n == GenerateGlobalEndpointSliceName(k1.name);
      var k2 :| k2 in cfg.keys[d] && n == GenerateGlobalEndpointSliceName(k2.name);
      SameSliceName(k1.name, k2.name);
    }
  }

  lemma DistinctRunnersApart(cfg: SliceConfig)
    requires DistinctAcrossClusters(cfg.keys)
    ensures Apart(SliceKinds(cfg), OtherSlice())
  {
    var kinds, alien := SliceKinds(cfg), OtherSlice();
    forall c | c in kinds ensures Lawful(kinds[c]) {
      SliceKindLawful(c, c == cfg.localCluster, cfg.zones, cfg.keys[c]);
    }
    forall c, d, n | c in kinds && d in kinds && c != d && kinds[c].owns(n) ensures !kinds[d].owns(n) {
      NamesKeptApart(cfg, c, d, n);
    }
    forall c, d, l | c in kinds && d in kinds && c != d && kinds[c].labelled(l) ensures !kinds[d].labelled(l) {
      LabelsTell(c, l.labels);
      if kinds[d].labelled(l) {
        LabelsTell(d, l.labels);
      }
    }
    forall c, l | c in kinds && alien(l) ensures !kinds[c].labelled(l) {
      if kinds[c].labelled(l) {
        LabelsTell(c, l.labels);
      }
    }
  }

  lemma ApartRunnersDistinct(cfg: SliceConfig, c: string, d: string, k1: Key, k2: Key)
    requires Apart(SliceKinds(cfg), OtherSlice())
    requires c in cfg.keys && d in cfg.keys && k1 in cfg.keys[c] && k2 in cfg.keys[d] && k1.name == k2.name
    ensures c == d && k1 == k2
  {
    var kinds := SliceKinds(cfg);
    assert kinds[c].owns(kinds[c].name(k1)) && kinds[d].owns(kinds[c].name(k1));
    assert Lawful(kinds[c]);
    SliceKindLawful(c, c == cfg.localCluster, cfg.zones, cfg.keys[c]);
  }

  /** Distinct slice names across clusters and namespaces are exactly what keeps the runners apart. */
  lemma SliceRunnersApartExactly(cfg: SliceConfig)
    ensures Apart(SliceKinds(cfg), OtherSlice()) <==> DistinctAcrossClusters(cfg.keys)
  {
    if DistinctAcrossClusters(cfg.keys) {
      DistinctRunnersApart(cfg);
    }
    if Apart(SliceKinds(cfg), OtherSlice()) {
      forall c, d, k1, k2 | c in cfg.keys && d in cfg.keys && k1 in cfg.keys[c] && k2 in cfg.keys[d]
          && k1.name == k2.name
        ensures c == d && k1 == k2
      {
        ApartRunnersDistinct(cfg, c, d, k1, k2);
      }
    }
  }

  ghost predicate AllAtRest(f: SliceFleet) {
    forall c :: c in f.runners ==> Quiescent(f.runners[c])
  }

  ghost predicate AllTidy(f: SliceFleet) {
    forall c :: c in f.runners ==> f.runners[c].tidy
  }

  ghost predicate Resting(cfg: SliceConfig, f: SliceFleet) {
    Apart(SliceKinds(cfg), OtherSlice()) && FleetInv(SliceKinds(cfg), OtherSlice(), f) && AllAtRest(f)
  }

  function SourceName(s: Source): string {
    GenerateGlobalEndpointSliceName(s.key.name)
  }

  lemma MirrorOfSource(cfg: SliceConfig, f: SliceFleet, s: Source)
    requires Resting(cfg, f) && s in AllSources(f)
    ensures var n, slice := SourceName(s), SourceOf(f, s);
            && n in f.local && SERVICE_NAME_LABEL in slice.labels
            && Targets(f.local[n], GlobalName(ServiceOf(f, s)))
            && Addresses(f.local[n].endpoints) == Addresses(slice.endpoints)
  {
    var c, slice := s.cluster, SourceOf(f, s);
    var kind := SliceKinds(cfg)[c];
    QuiescentAgrees(kind, View(f, c));
    assert Controller.Settled(kind, View(f, c), s.key);
    SliceLabelsCarryBoth(c, GenerateGlobalServiceName(TargetService(slice), s.key.namespace));
    HintsKeepAddresses(c == cfg.localCluster, cfg.zones, slice.endpoints);
  }

  ghost function Services(f: SliceFleet, service: Key): iset<Key> {
    (iset s | s in AllSources(f) :: ServiceOf(f, s)) + iset{service}
  }

  /** The local names under which cached slices, of any service, are mirrored. */
  function AllMirrorNames(f: SliceFleet): set<string> {
    set s | s in AllSources(f) :: SourceName(s)
  }

  /** The addresses of the local slices labelled for a global service that mirror no cached slice. */
  function LeftoverEndpoints(f: SliceFleet, name: string): map<string, multiset<string>> {
    LocalEndpoints(f, name) - AllMirrorNames(f)
  }

  function MirroredEndpoints(f: SliceFleet, name: string): map<string, multiset<string>> {
    LocalEndpoints(f, name) - LeftoverEndpoints(f, name).Keys
  }

  lemma SourceOfMirror(cfg: SliceConfig, f: SliceFleet, n: string, service: Key) returns (s: Source)
    requires Resting(cfg, f) && CollisionFree(Services(f, service))
    requires n in MirroredEndpoints(f, GlobalName(service))
    ensures s in AllSources(f) && ServiceOf(f, s) == service && n == SourceName(s)
  {
    s :| s in AllSources(f) && n == SourceName(s);
    MirrorOfSource(cfg, f, s);
    assert ServiceOf(f, s) in Services(f, service) && service in Services(f, service);
    CollisionFreeNames(Services(f, service), "", ServiceOf(f, s), service);
  }

  function MirrorNames(f: SliceFleet, service: Key): map<Source, string> {
    map s | s in RemoteEndpoints(f, service) :: SourceName(s)
  }

  lemma MirrorNamesDistinct(cfg: SliceConfig, f: SliceFleet, s1: Source, s2: Source)
    requires Resting(cfg, f) && s1 in AllSources(f) && s2 in AllSources(f) && SourceName(s1) == SourceName(s2)
    ensures s1 == s2
  {
    SameSliceName(s1.key.name, s2.key.name);
    var kinds := SliceKinds(cfg);
    assert Controller.Inv(kinds[s1.cluster], View(f, s1.cluster))
           && Controller.Inv(kinds[s2.cluster], View(f, s2.cluster));
    assert s1.key in f.runners[s1.cluster].seen && s2.key in f.runners[s2.cluster].seen;
    ApartRunnersDistinct(cfg, s1.cluster, s2.cluster, s1.key, s2.key);
  }

  lemma EveryMirrorHasSource(cfg: SliceConfig, f: SliceFleet, service: Key)
    requires Resting(cfg, f) && CollisionFree(Services(f, service))
    ensures var b, h := MirroredEndpoints(f, GlobalName(service)), MirrorNames(f, service);
            forall n :: n in b ==> exists s :: s in h && h[s] == n
  {
    var b, h := MirroredEndpoints(f, GlobalName(service)), MirrorNames(f, service);
    forall n | n in b ensures exists s :: s in h && h[s] == n {
      var s := SourceOfMirror(cfg, f, n, service);
      MirrorOfSource(cfg, f, s);
      assert s in h;
    }
  }

  lemma MirroringRenames(cfg: SliceConfig, f: SliceFleet, service: Key)
    requires Resting(cfg, f) && CollisionFree(Services(f, service))
    ensures Renames(RemoteEndpoints(f, service), MirroredEndpoints(f, GlobalName(service)), MirrorNames(f, service))
  {
    var a, b, h := RemoteEndpoints(f, service), MirroredEndpoints(f, GlobalName(service)), MirrorNames(f, service);
    forall s | s in h ensures h[s] in b && b[h[s]] == a[s] {
      MirrorOfSource(cfg, f, s);
      assert h[s] in AllMirrorNames(f);
    }
    EveryMirrorHasSource(cfg, f, service);
    forall s1, s2 | s1 in h && s2 in h && h[s1] == h[s2] ensures s1 == s2 {
      MirrorNamesDistinct(cfg, f, s1, s2);
    }
  }

  lemma LocalParts(f: SliceFleet, name: string)
    ensures MirroredEndpoints(f, name).Keys !! LeftoverEndpoints(f, name).Keys
    ensures MirroredEndpoints(f, name) + LeftoverEndpoints(f, name) == LocalEndpoints(f, name)
  {
  }

  /** At rest the local slices labelled for a global service hold exactly, as a multiset, the addresses of
      that service's slices in all clusters and those of leftover mirrors that were never cleared. */
  lemma EndpointsBalance(cfg: SliceConfig, f: SliceFleet, service: Key)
    requires Resting(cfg, f) && CollisionFree(Services(f, service))
    ensures var n := GlobalName(service);
            Total(LocalEndpoints(f, n)) == Total(RemoteEndpoints(f, service)) + Total(LeftoverEndpoints(f, n))
  {
    var n := GlobalName(service);
    MirroringRenames(cfg, f, service);
    TotalRenamed(RemoteEndpoints(f, service), MirroredEndpoints(f, n), MirrorNames(f, service));
    LocalParts(f, n);
    TotalUnion(MirroredEndpoints(f, n), LeftoverEndpoints(f, n));
  }

  /** A slice that targets a global service at a tidy rest is the mirror of some cluster's cached slice. */
  lemma TidyMirrorHasSource(cfg: SliceConfig, f: SliceFleet, n: string, service: Key)
    requires Resting(cfg, f) && AllTidy(f) && n in LocalEndpoints(f, GlobalName(service))
    ensures n in AllMirrorNames(f)
  {
    var kinds := SliceKinds(cfg);
    NameShapes(GLOBAL_PREFIX, service);
    MirrorNameInSpace(GLOBAL_PREFIX, service);
    assert !OtherSlice()(f.local[n]);
    var c :| c in kinds && kinds[c].labelled(f.local[n]);
    TidyRestIsExact(kinds[c], View(f, c));
    assert n in Names(kinds[c], f.runners[c].remote.Keys);
    var k :| k in f.runners[c].remote.Keys && kinds[c].name(k) == n;
    assert Source(c, k) in AllSources(f) && SourceName(Source(c, k)) == n;
  }

  lemma TidyLeavesNothing(cfg: SliceConfig, f: SliceFleet, service: Key)
    requires Resting(cfg, f) && AllTidy(f)
    ensures LeftoverEndpoints(f, GlobalName(service)) == map[]
  {
    forall n | n in LocalEndpoints(f, GlobalName(service)) ensures n in AllMirrorNames(f) {
      TidyMirrorHasSource(cfg, f, n, service);
    }
  }

  /** At rest a global service has exactly the endpoints of all clusters if and only if the leftover
      mirrors aimed at it hold no address; and where every runner is tidy there are none. */
  lemma EndpointsConservedExactly(cfg: SliceConfig, f: SliceFleet, service: Key)
    requires Resting(cfg, f) && CollisionFree(Services(f, service))
    ensures var n := GlobalName(service);
            && (Total(LocalEndpoints(f, n)) == Total(RemoteEndpoints(f, service)) <==>
                Total(LeftoverEndpoints(f, n)) == multiset{})
            && (AllTidy(f) ==> Total(LocalEndpoints(f, n)) == Total(RemoteEndpoints(f, service)))
  {
    EndpointsBalance(cfg, f, service);
    if AllTidy(f) {
      TidyLeavesNothing(cfg, f, service);
    }
  }

  /** A start without leftover mirrors ends without them. */
  lemma CleanStartEndsTidy(cfg: SliceConfig, f: SliceFleet, run: seq<Event<RemoteSlice, LocalSlice>>)
    requires DistinctAcrossClusters(cfg.keys) && AllTidy(f)
    requires Fleets.Initial(SliceKinds(cfg), OtherSlice(), f) && Fleets.ValidRun(SliceKinds(cfg), OtherSlice(), f, run)
    ensures AllTidy(Fleets.Final(SliceKinds(cfg), OtherSlice(), f, run))
  {
    var kinds, alien := SliceKinds(cfg), OtherSlice();
    DistinctRunnersApart(cfg);
    ReachableInv(kinds, alien, f, run);
    var end := Fleets.Final(kinds, alien, f, run);
    forall c | c in end.runners ensures end.runners[c].tidy {
      assert c in f.runners;
      TidyStays(kinds, alien, f, run, c);
    }
  }

  /** Over every run of all slice runners: once every queue is empty nothing is lost, doubled or aimed at
      another service, and nothing is there beside it but the addresses of leftover mirrors; none if all
      runners are tidy. */
  lemma ConservationOverRuns(cfg: SliceConfig, f: SliceFleet, run: seq<Event<RemoteSlice, LocalSlice>>, service: Key)
    requires DistinctAcrossClusters(cfg.keys)
    requires Fleets.Initial(SliceKinds(cfg), OtherSlice(), f) && Fleets.ValidRun(SliceKinds(cfg), OtherSlice(), f, run)
    requires var end := Fleets.Final(SliceKinds(cfg), OtherSlice(), f, run);
             AllAtRest(end) && CollisionFree(Services(end, service))
    ensures var end, n := Fleets.Final(SliceKinds(cfg), OtherSlice(), f, run), GlobalName(service);
            && Total(LocalEndpoints(end, n)) == Total(RemoteEndpoints(end, service)) + Total(LeftoverEndpoints(end, n))
            && (AllTidy(end) ==> Total(LocalEndpoints(end, n)) == Total(RemoteEndpoints(end, service)))
  {
    DistinctRunnersApart(cfg);
    ReachableInv(SliceKinds(cfg), OtherSlice(), f, run);
    var end := Fleets.Final(SliceKinds(cfg), OtherSlice(), f, run);
    EndpointsBalance(cfg, end, service);
    EndpointsConservedExactly(cfg, end, service);
  }

  lemma LabelledIsAcceptable(cfg: SliceConfig, f: SliceFleet)
    requires f.runners.Keys <= SliceKinds(cfg).Keys
    requires forall s :: s in AllSources(f) ==> SERVICE_NAME_LABEL in SourceOf(f, s).labels
    ensures AllAcceptable(SliceKinds(cfg), f)
  {
    forall c, k | c in f.runners && k in f.runners[c].remote
      ensures SERVICE_NAME_LABEL in f.runners[c].remote[k].labels
    {
      assert Source(c, k) in AllSources(f);
    }
  }

  /** And such a rest can be reached: from every state that the slice runners get to with all cached slices
      labelled, steps of the runners alone lead to one with the same caches. */
  lemma RestIsReachable(cfg: SliceConfig, f: SliceFleet, before: seq<Event<RemoteSlice, LocalSlice>>)
      returns (run: seq<Event<RemoteSlice, LocalSlice>>)
    requires DistinctAcrossClusters(cfg.keys)
    requires Fleets.Initial(SliceKinds(cfg), OtherSlice(), f)
             && Fleets.ValidRun(SliceKinds(cfg), OtherSlice(), f, before)
    requires forall s :: s in AllSources(Fleets.Final(SliceKinds(cfg), OtherSlice(), f, before)) ==>
               SERVICE_NAME_LABEL in SourceOf(Fleets.Final(SliceKinds(cfg), OtherSlice(), f, before), s).labels
    ensures var mid := Fleets.Final(SliceKinds(cfg), OtherSlice(), f, before);
            && Fleets.ValidRun(SliceKinds(cfg), OtherSlice(), mid, run)
            && var end := Fleets.Final(SliceKinds(cfg), OtherSlice(), mid, run);
               && AllAtRest(end) && end.runners.Keys == mid.runners.Keys
               && forall c :: c in mid.runners ==> end.runners[c].remote == mid.runners[c].remote
  {
    DistinctRunnersApart(cfg);
    ReachableInv(SliceKinds(cfg), OtherSlice(), f, before);
    var mid := Fleets.Final(SliceKinds(cfg), OtherSlice(), f, before);
    LabelledIsAcceptable(cfg, mid);
    run := FleetDrains(SliceKinds(cfg), OtherSlice(), mid, mid.runners.Keys);
  }

  /** The README's claim, both machines together and with every queue empty: the global service of a key
      exists exactly when some cluster has the service, it lists exactly those clusters, and its slices
      hold exactly the endpoints all clusters have for it, unless leftover mirrors were never cleared. */
  lemma GlobalServiceComplete(
      gcfg: Aggregation.Config, q: Queued, steps: seq<Step>,
      cfg: SliceConfig, f: SliceFleet, run: seq<Event<RemoteSlice, LocalSlice>>, at: Aggregation.At)
    requires CollisionFree(gcfg.keys) && DistinctAcrossClusters(cfg.keys)
    requires QueuedRunners.Initial(gcfg, q) && QueuedRunners.ValidRun(gcfg, q, steps)
    requires AllQueuesEmpty(QueuedRunners.Final(gcfg, q, steps)) && at in QueuedRunners.Final(gcfg, q, steps).seen
    requires Fleets.Initial(SliceKinds(cfg), OtherSlice(), f) && Fleets.ValidRun(SliceKinds(cfg), OtherSlice(), f, run)
    requires var end := Fleets.Final(SliceKinds(cfg), OtherSlice(), f, run);
             AllAtRest(end) && CollisionFree(Services(end, at.key))
    ensures var services := QueuedRunners.Final(gcfg, q, steps);
            var slices := Fleets.Final(SliceKinds(cfg), OtherSlice(), f, run);
            var n := GlobalName(at.key);
            && (n in services.local <==> Aggregation.ClustersWith(services.cache, at.key) != {})
            && (n in services.local ==>
                  && n in services.store
                  && multiset(services.store[n].clusters) == multiset(Aggregation.ClustersWith(services.cache, at.key))
                  && services.local[n].annotations == services.store[n].annotations)
            && Total(LocalEndpoints(slices, n)) ==
                Total(RemoteEndpoints(slices, at.key)) + Total(LeftoverEndpoints(slices, n))
            && (AllTidy(slices) ==> Total(LocalEndpoints(slices, n)) == Total(RemoteEndpoints(slices, at.key)))
  {
    EmptyQueuesExact(gcfg, q, steps, at);
    ConservationOverRuns(cfg, f, run, at.key);
  }
}
