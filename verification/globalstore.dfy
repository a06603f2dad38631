/** The store of global services shared by all runners (globalservice.go). */
module GlobalStore {
  import opened Wrappers
  import opened Naming
  import opened Lists

  datatype ServicePort = ServicePort(name: string, protocol: string, port: int, targetPort: string)

  /** A watched service, as a runner finds it in its cache. */
  datatype RemoteService = RemoteService(key: Key, ports: seq<ServicePort>, clusterIP: string,
                                         labels: map<string, string>)

  predicate IsHeadless(svc: RemoteService) {
    svc.clusterIP == "None"
  }

  const HINTS_ANNOTATION := "service.kubernetes.io/topology-aware-hints"
  const HINTS_VALUE := "auto"
  const CLUSTERS_ANNOTATION := "global-svc-clusters"
  const GLOBAL_LABELS: map<string, string> := map["global-svc" := "true"]

  /** The value of a stored global service. */
  datatype Entry = Entry(
    key: Key,
    ports: seq<ServicePort>,
    headless: bool,
    labels: map<string, string>,
    annotations: map<string, string>,
    clusters: seq<string>)

  type Contents = map<string, Entry>

  datatype StoreError = HeadlessMismatch

  function HintAnnotations(hints: bool): map<string, string> {
    if hints then map[HINTS_ANNOTATION := HINTS_VALUE] else map[]
  }

  function WithClusters(annotations: map<string, string>, clusters: seq<string>): map<string, string> {
    annotations[CLUSTERS_ANNOTATION := Join(clusters, ',')]
  }

  // --- What the two mutating operations compute ------------------------------------------

  function WithCluster(clusters: seq<string>, cluster: string): seq<string> {
    if cluster in clusters then clusters else clusters + [cluster]
  }

  function AddTarget(store: Contents, svc: RemoteService, cluster: string, hints: bool): Result<Contents, StoreError> {
    var name := GlobalName(svc.key);
    if name !in store then
      var annotations := WithClusters(HintAnnotations(hints), [cluster]);
      Ok(store[name := Entry(svc.key, svc.ports, IsHeadless(svc), GLOBAL_LABELS, annotations, [cluster])])
    else
      var e := store[name];
      if e.headless != IsHeadless(svc) then Err(HeadlessMismatch)
      else
        var clusters := WithCluster(e.clusters, cluster);
        var annotations := WithClusters(HintAnnotations(hints), clusters);
        Ok(store[name := e.(clusters := clusters, annotations := annotations, ports := svc.ports)])
  }

  /** The first index of a member. */
  function IndexOf(s: seq<string>, x: string): (i: nat)
    requires x in s
    ensures i < |s| && s[i] == x && x !in s[..i]
  {
    if s[0] == x then 0
    else
      var j := IndexOf(s[1..], x);
      assert s[..j + 1] == [s[0]] + s[1..][..j];
      j + 1
  }

  lemma FirstIndexUnique(s: seq<string>, x: string, i: nat)
    requires i < |s| && s[i] == x && x !in s[..i]
    ensures x in s && i == IndexOf(s, x)
  {
  }

  function WithoutCluster(clusters: seq<string>, cluster: string): seq<string> {
    if cluster in clusters then SwapRemoved(clusters, IndexOf(clusters, cluster)) else clusters
  }

  function DeleteTarget(store: Contents, key: Key, cluster: string): Contents {
    var name := GlobalName(key);
    if name !in store then store
    else
      var e := store[name];
      var clusters := WithoutCluster(e.clusters, cluster);
      if clusters == [] then store - {name}
      else store[name := e.(clusters := clusters, annotations := WithClusters(e.annotations, clusters))]
  }

  // --- The store as the source has it: a map of entries mutated in place --------------------

  class GlobalService {
    var key: Key
    var ports: seq<ServicePort>
    var headless: bool
    var labels: map<string, string>
    var annotations: map<string, string>
    var clusters: seq<string>

    ghost function View(): Entry
      reads this
    {
      Entry(key, ports, headless, labels, annotations, clusters)
    }

    constructor (svc: RemoteService, annotations: map<string, string>, cluster: string)
      ensures View() == Entry(svc.key, svc.ports, IsHeadless(svc), GLOBAL_LABELS, annotations, [cluster])
    {
      key, ports, headless := svc.key, svc.ports, IsHeadless(svc);
      labels := GLOBAL_LABELS;
      this.annotations, clusters := annotations, [cluster];
    }
  }

  class GlobalServiceStore {
    var store: map<string, GlobalService>

    ghost predicate Valid()
      reads this
    {
      forall n1, n2 :: n1 in store && n2 in store && n1 != n2 ==> store[n1] != store[n2]
    }

    ghost function Entries(): set<GlobalService>
      reads this
    {
      store.Values
    }

    ghost function View(): Contents
      reads this, Entries()
    {
      map n | n in store :: store[n].View()
    }

    /** Writing to one entry changes the view at its name only. */
    twostate lemma OneEntryWritten(name: string)
      requires old(Valid()) && name in old(store) && store == old(store)
      requires forall n :: n in store && n != name ==> unchanged(store[n])
      ensures Valid() && View() == old(View())[name := store[name].View()]
    {
    }

    /** A fresh entry under a new name adds its view and nothing else. */
    twostate lemma OneEntryAdded(name: string, new gsvc: GlobalService)
      requires old(Valid()) && name !in old(store) && store == old(store)[name := gsvc] && fresh(gsvc)
      requires forall n :: n in old(store) ==> unchanged(old(store)[n])
      ensures Valid() && View() == old(View())[name := gsvc.View()]
    {
    }

    /** Dropping a name leaves the view at the other names alone, whatever was written to the
        dropped entry. */
    twostate lemma OneEntryDropped(name: string)
      requires old(Valid()) && name in old(store) && store == old(store) - {name}
      requires forall n :: n in store ==> unchanged(store[n])
      ensures Valid() && View() == old(View()) - {name} && Entries() <= old(Entries())
    {
    }

    constructor ()
      ensures Valid() && View() == map[] && Entries() == {}
    {
      store := map[];
    }

    method AddOrUpdateClusterServiceTarget(svc: RemoteService, cluster: string, topologyAwareHints: bool)
      returns (result: Result<GlobalService, StoreError>)
      requires Valid()
      modifies this, Entries()
      ensures Valid() && fresh(Entries() - old(Entries()))
      ensures match AddTarget(old(View()), svc, cluster, topologyAwareHints) {
        case Ok(after) =>
          View() == after && result.Ok? && GlobalName(svc.key) in store && store[GlobalName(svc.key)] == result.value
        case Err(e) => View() == old(View()) && result == Err(e)
      }
    {
      var gsvcName := GlobalName(svc.key);
      var gsvcAnnotations := map[];
      if topologyAwareHints {
        gsvcAnnotations := gsvcAnnotations[HINTS_ANNOTATION := HINTS_VALUE];
      }
      if gsvcName !in store {
        gsvcAnnotations := gsvcAnnotations[CLUSTERS_ANNOTATION := cluster];
        var gsvc := new GlobalService(svc, gsvcAnnotations, cluster);
        store := store[gsvcName := gsvc];
        OneEntryAdded(gsvcName, gsvc);
        return Ok(gsvc);
      }
      var gsvc := store[gsvcName];
      if gsvc.headless != IsHeadless(svc) {
        return Err(HeadlessMismatch);
      }
      var _, found := InSlice(gsvc.clusters, cluster);
      if !found {
        gsvc.clusters := gsvc.clusters + [cluster];
      }
      gsvcAnnotations := gsvcAnnotations[CLUSTERS_ANNOTATION := Join(gsvc.clusters, ',')];
      gsvc.annotations := gsvcAnnotations;
      gsvc.ports := svc.ports;
      OneEntryWritten(gsvcName);
      return Ok(gsvc);
    }

    method DeleteClusterServiceTarget(name: string, namespace: string, cluster: string)
      returns (remaining: Option<GlobalService>)
      requires Valid()
      modifies this, Entries()
      ensures Valid() && Entries() <= old(Entries())
      ensures View() == DeleteTarget(old(View()), Key(namespace, name), cluster)
      ensures remaining.Some? <==> GlobalName(Key(namespace, name)) in store
      ensures remaining.Some? ==> remaining.value == store[GlobalName(Key(namespace, name))]
    {
      var gsvcName := GenerateGlobalServiceName(name, namespace);
      if gsvcName !in store {
        return None;
      }
      var gsvc := store[gsvcName];
      var i, found := InSlice(gsvc.clusters, cluster);
      if found {
        FirstIndexUnique(gsvc.clusters, cluster, i);
        gsvc.clusters := CutFromSlice(gsvc.clusters, i);
      }
      store := store[gsvcName := gsvc];
      assert store == old(store);
      assert gsvc.clusters == WithoutCluster(old(View())[gsvcName].clusters, cluster);
      if |gsvc.clusters| == 0 {
        store := store - {gsvcName};
        OneEntryDropped(gsvcName);
        return None;
      }
      gsvc.annotations := gsvc.annotations[CLUSTERS_ANNOTATION := Join(gsvc.clusters, ',')];
      OneEntryWritten(gsvcName);
      return Some(gsvc);
    }

    method Get(name: string, namespace: string) returns (gsvc: Option<GlobalService>)
      requires Valid()
      ensures gsvc.Some? <==> GlobalName(Key(namespace, name)) in View()
      ensures gsvc.Some? ==> gsvc.value in Entries() && gsvc.value.View() == View()[GlobalName(Key(namespace, name))]
    {
      var gsvcName := GenerateGlobalServiceName(name, namespace);
      if gsvcName in store {
        return Some(store[gsvcName]);
      }
      return None;
    }
  }

  // --- Traces of store calls ---------------------------------------------------------------

  datatype Call =
    | Add(svc: RemoteService, cluster: string, hints: bool)
    | Delete(key: Key, cluster: string)
  {
    function Target(): Key {
      if Add? then svc.key else key
    }
  }

  function Apply(store: Contents, call: Call): Contents {
    match call
    case Add(svc, cluster, hints) =>
      (match AddTarget(store, svc, cluster, hints)
       case Ok(after) => after
       case Err(_) => store)
    case Delete(key, cluster) => DeleteTarget(store, key, cluster)
  }

  predicate Succeeds(store: Contents, call: Call) {
    call.Add? ==> AddTarget(store, call.svc, call.cluster, call.hints).Ok?
  }

  function Replay(calls: seq<Call>): Contents {
    if calls == [] then map[] else Apply(Replay(calls[..|calls| - 1]), calls[|calls| - 1])
  }

  predicate IsMember(store: Contents, key: Key, cluster: string) {
    GlobalName(key) in store && cluster in store[GlobalName(key)].clusters
  }

  /** The reference definition of membership: look back for the last call about this key and
      cluster that succeeded, and ask whether it was an add. */
  predicate LastSuccessIsAdd(calls: seq<Call>, key: Key, cluster: string) {
    calls != [] &&
    var earlier, last := calls[..|calls| - 1], calls[|calls| - 1];
    if last.Target() == key && last.cluster == cluster && Succeeds(Replay(earlier), last) then last.Add?
    else LastSuccessIsAdd(earlier, key, cluster)
  }

  ghost predicate EntryWellFormed(e: Entry) {
    && e.clusters != []
    && NoDups(e.clusters)
    && CLUSTERS_ANNOTATION in e.annotations
    && e.annotations[CLUSTERS_ANNOTATION] == Join(e.clusters, ',')
    && e.annotations.Keys <= {CLUSTERS_ANNOTATION, HINTS_ANNOTATION}
    && (HINTS_ANNOTATION in e.annotations ==> e.annotations[HINTS_ANNOTATION] == HINTS_VALUE)
    && e.labels == GLOBAL_LABELS
  }

  ghost predicate WellFormed(store: Contents) {
    forall n :: n in store ==> EntryWellFormed(store[n]) && n == GlobalName(store[n].key)
  }

  lemma WithClusterElements(clusters: seq<string>, cluster: string)
    requires NoDups(clusters)
    ensures NoDups(WithCluster(clusters, cluster)) && WithCluster(clusters, cluster) != []
    ensures forall c :: c in WithCluster(clusters, cluster) <==> c in clusters || c == cluster
  {
  }

  lemma WithoutClusterElements(clusters: seq<string>, cluster: string)
    requires NoDups(clusters)
    ensures NoDups(WithoutCluster(clusters, cluster))
    ensures forall c :: c in WithoutCluster(clusters, cluster) <==> c in clusters && c != cluster
  {
    if cluster in clusters {
      SwapRemovedElements(clusters, IndexOf(clusters, cluster));
    }
  }

  /** The annotations beside the clusters one: the hints one, with its one value, or none. */
  ghost predicate HintsAre(annotations: map<string, string>, hints: bool) {
    && ("service.kubernetes.io/topology-aware-hints" in annotations <==> hints)
    && (hints ==> annotations["service.kubernetes.io/topology-aware-hints"] == "auto")
  }

  /** What an add does: it is turned down exactly on a service of the other kind than the entry. Otherwise
      the entry has the ports of the service, the hints as asked and the cluster listed, a new one at the
      end; a new entry is of the kind of its service, an old one keeps its kind; and no other changes. */
  lemma AddExact(store: Contents, svc: RemoteService, cluster: string, hints: bool)
    ensures var n, result := GlobalName(svc.key), AddTarget(store, svc, cluster, hints);
            && (result.Err? <==> n in store && (store[n].headless <==> svc.clusterIP != "None"))
            && (result.Ok? ==>
                  && n in result.value && (forall x :: x != n ==> (x in result.value <==> x in store))
                  && (forall x :: x != n && x in store ==> result.value[x] == store[x])
                  && var e := result.value[n];
                     && e.ports == svc.ports && (e.headless <==> svc.clusterIP == "None")
                     && HintsAre(e.annotations, hints)
                     && "global-svc-clusters" in e.annotations
                     && e.annotations["global-svc-clusters"] == Join(e.clusters, ',')
                     && (if n in store then
                           && e.key == store[n].key && e.labels == store[n].labels
                           && e.clusters == store[n].clusters + (if cluster in store[n].clusters then [] else [cluster])
                         else e.key == svc.key && e.labels == map["global-svc" := "true"] && e.clusters == [cluster]))
  {
    assert HINTS_ANNOTATION[0] != CLUSTERS_ANNOTATION[0];
  }

  /** What a delete does: the cluster leaves the list; an entry with none left goes, any other keeps all
      but its list and the annotation that spells it out. */
  lemma DeleteExact(store: Contents, key: Key, cluster: string)
    requires WellFormed(store)
    ensures var n, after := GlobalName(key), DeleteTarget(store, key, cluster);
            && (forall x :: x != n ==> (x in after <==> x in store))
            && (forall x :: x != n && x in store ==> after[x] == store[x])
            && (n in after <==> n in store && exists c :: c in store[n].clusters && c != cluster)
            && (n in after ==>
                  && NoDups(after[n].clusters)
                  && (forall c :: c in after[n].clusters <==> c in store[n].clusters && c != cluster)
                  && after[n].annotations - {"global-svc-clusters"} == store[n].annotations - {"global-svc-clusters"}
                  && "global-svc-clusters" in after[n].annotations
                  && after[n].annotations["global-svc-clusters"] == Join(after[n].clusters, ',')
                  && after[n].key == store[n].key && after[n].ports == store[n].ports
                  && after[n].headless == store[n].headless && after[n].labels == store[n].labels)
  {
    var n := GlobalName(key);
    if n in store {
      WithoutClusterElements(store[n].clusters, cluster);
      var rest := WithoutCluster(store[n].clusters, cluster);
      assert rest != [] ==> rest[0] in rest;
    }
  }

  lemma AddWellFormed(store: Contents, svc: RemoteService, cluster: string, hints: bool)
    requires WellFormed(store) && AddTarget(store, svc, cluster, hints).Ok?
    ensures WellFormed(AddTarget(store, svc, cluster, hints).value)
  {
    var name := GlobalName(svc.key);
    if name in store {
      WithClusterElements(store[name].clusters, cluster);
    }
    assert HINTS_ANNOTATION[0] != CLUSTERS_ANNOTATION[0];
    assert EntryWellFormed(AddTarget(store, svc, cluster, hints).value[name]);
  }

  lemma DeleteWellFormed(store: Contents, key: Key, cluster: string)
    requires WellFormed(store)
    ensures WellFormed(DeleteTarget(store, key, cluster))
  {
    if GlobalName(key) in store {
      WithoutClusterElements(store[GlobalName(key)].clusters, cluster);
    }
  }

  lemma ApplyWellFormed(store: Contents, call: Call)
    requires WellFormed(store)
    ensures WellFormed(Apply(store, call))
  {
    match call
    case Add(svc, cluster, hints) =>
      if AddTarget(store, svc, cluster, hints).Ok? {
        AddWellFormed(store, svc, cluster, hints);
      }
    case Delete(key, cluster) => DeleteWellFormed(store, key, cluster);
  }

  /** One call changes the membership of its own key and cluster only, and only on success. */
  lemma ApplyMembership(store: Contents, call: Call, key: Key, cluster: string)
    requires WellFormed(store)
    requires GlobalName(call.Target()) == GlobalName(key) ==> call.Target() == key
    ensures IsMember(Apply(store, call), key, cluster) <==>
            if call.Target() == key && call.cluster == cluster && Succeeds(store, call) then call.Add?
            else IsMember(store, key, cluster)
  {
    var name := GlobalName(call.Target());
    if name in store {
      WithClusterElements(store[name].clusters, call.cluster);
      WithoutClusterElements(store[name].clusters, call.cluster);
      assert call.Delete? && WithoutCluster(store[name].clusters, call.cluster) == [] ==>
        forall c :: c in store[name].clusters ==> c == call.cluster;
    }
  }

  lemma ReplayWellFormed(calls: seq<Call>)
    ensures WellFormed(Replay(calls))
  {
    if calls != [] {
      ReplayWellFormed(calls[..|calls| - 1]);
      ApplyWellFormed(Replay(calls[..|calls| - 1]), calls[|calls| - 1]);
    }
  }

  ghost function Targets(calls: seq<Call>): iset<Key> {
    iset c | c in calls :: c.Target()
  }

  /** A cluster is listed for a key exactly when its last successful call was an add. */
  lemma {:induction false} StoreRefinesMembership(calls: seq<Call>, key: Key, cluster: string)
    requires CollisionFree(Targets(calls) + iset{key})
    ensures IsMember(Replay(calls), key, cluster) <==> LastSuccessIsAdd(calls, key, cluster)
  {
    if calls != [] {
      var earlier, last := calls[..|calls| - 1], calls[|calls| - 1];
      assert last in calls && forall c :: c in earlier ==> c in calls;
      assert last.Target() in Targets(calls);
      SameNameSameBody("", last.Target(), key);
      ReplayWellFormed(earlier);
      ApplyMembership(Replay(earlier), last, key, cluster);
      StoreRefinesMembership(earlier, key, cluster);
    }
  }

  /** An entry is present exactly when some cluster's last successful call was an add. */
  lemma EntryExistsExactly(calls: seq<Call>, key: Key)
    requires CollisionFree(Targets(calls) + iset{key})
    ensures GlobalName(key) in Replay(calls) <==> exists c :: LastSuccessIsAdd(calls, key, c)
  {
    ReplayWellFormed(calls);
    var store := Replay(calls);
    if GlobalName(key) in store {
      var c := store[GlobalName(key)].clusters[0];
      StoreRefinesMembership(calls, key, c);
      assert LastSuccessIsAdd(calls, key, c);
    }
    if c :| LastSuccessIsAdd(calls, key, c) {
      StoreRefinesMembership(calls, key, c);
    }
  }

  /** No call changes the headless flag or the key of an entry that it leaves in the store. */
  lemma ApplyKeepsIdentity(store: Contents, call: Call, name: string)
    requires name in store && name in Apply(store, call)
    ensures Apply(store, call)[name].headless == store[name].headless
    ensures Apply(store, call)[name].key == store[name].key
  {
  }

  lemma {:induction false} HeadlessConstantOverLifetime(calls: seq<Call>, born: nat, name: string)
    requires born <= |calls|
    requires forall i :: born <= i <= |calls| ==> name in Replay(calls[..i])
    ensures name in Replay(calls)
    ensures Replay(calls)[name].headless == Replay(calls[..born])[name].headless
    ensures Replay(calls)[name].key == Replay(calls[..born])[name].key
  {
    assert calls[..|calls|] == calls;
    if born < |calls| {
      var earlier, last := calls[..|calls| - 1], calls[|calls| - 1];
      assert forall i :: 0 <= i <= |earlier| ==> earlier[..i] == calls[..i];
      HeadlessConstantOverLifetime(earlier, born, name);
      ApplyKeepsIdentity(Replay(earlier), last, name);
    }
  }

  lemma MadeByAdd(store: Contents, call: Call, name: string)
    requires name !in store && name in Apply(store, call)
    ensures call.Add? && name == GlobalName(call.svc.key)
    ensures Apply(store, call)[name].headless <==> call.svc.clusterIP == "None"
  {
    if call.Add? {
      AddExact(store, call.svc, call.cluster, call.hints);
    }
  }

  lemma ReplayedLast(calls: seq<Call>, n: nat)
    requires 1 <= n <= |calls|
    ensures Replay(calls[..n]) == Apply(Replay(calls[..n - 1]), calls[n - 1])
  {
    assert calls[..n][..n - 1] == calls[..n - 1];
  }

  /** Over every trace, an entry is headless exactly when the service is whose add made it. */
  lemma EntryIsOfItsMakersKind(calls: seq<Call>, born: nat, name: string)
    requires 1 <= born <= |calls| && name !in Replay(calls[..born - 1])
    requires forall i :: born <= i <= |calls| ==> name in Replay(calls[..i])
    ensures calls[born - 1].Add? && name == GlobalName(calls[born - 1].svc.key)
    ensures name in Replay(calls) && (Replay(calls)[name].headless <==> calls[born - 1].svc.clusterIP == "None")
  {
    ReplayedLast(calls, born);
    MadeByAdd(Replay(calls[..born - 1]), calls[born - 1], name);
    HeadlessConstantOverLifetime(calls, born, name);
  }

  /** The last successful add for a key, of any cluster. */
  function LastAdd(calls: seq<Call>, key: Key): Option<Call> {
    if calls == [] then None
    else
      var earlier, last := calls[..|calls| - 1], calls[|calls| - 1];
      if last.Add? && last.Target() == key && Succeeds(Replay(earlier), last) then Some(last) else LastAdd(earlier, key)
  }

  ghost predicate CarriesAdd(e: Entry, add: Option<Call>) {
    add.Some? && add.value.Add? && e.ports == add.value.svc.ports && HintsAre(e.annotations, add.value.hints)
  }

  /** An add leaves its own values in the entry, and every other call leaves them as they are. */
  lemma ApplyCarries(store: Contents, call: Call, key: Key, add: Option<Call>)
    requires GlobalName(call.Target()) == GlobalName(key) ==> call.Target() == key
    requires GlobalName(key) in store ==> CarriesAdd(store[GlobalName(key)], add)
    requires GlobalName(key) in Apply(store, call)
    ensures CarriesAdd(Apply(store, call)[GlobalName(key)],
                       if call.Add? && call.Target() == key && Succeeds(store, call) then Some(call) else add)
  {
  }

  /** The fungible values of an entry, its ports and its hints, are those of the last successful add,
      whatever clusters came and went since. */
  lemma {:induction false} LastAddWins(calls: seq<Call>, key: Key)
    requires CollisionFree(Targets(calls) + iset{key}) && GlobalName(key) in Replay(calls)
    ensures CarriesAdd(Replay(calls)[GlobalName(key)], LastAdd(calls, key))
  {
    var earlier, last := calls[..|calls| - 1], calls[|calls| - 1];
    assert last in calls && forall c :: c in earlier ==> c in calls;
    assert last.Target() in Targets(calls);
    SameNameSameBody("", last.Target(), key);
    if GlobalName(key) in Replay(earlier) {
      LastAddWins(earlier, key);
    }
    ApplyCarries(Replay(earlier), last, key, LastAdd(earlier, key));
  }

  /** Splitting the clusters annotation on commas gives back the clusters list exactly when no
      listed cluster name holds a comma. */
  lemma AnnotationRoundTrip(calls: seq<Call>, name: string)
    requires name in Replay(calls)
    ensures var e := Replay(calls)[name];
            && CLUSTERS_ANNOTATION in e.annotations
            && (Split(e.annotations[CLUSTERS_ANNOTATION], ',') == e.clusters <==>
                  forall c :: c in e.clusters ==> ',' !in c)
  {
    ReplayWellFormed(calls);
    SplitJoin(Replay(calls)[name].clusters, ',');
  }

  lemma ListedBefore(store: Contents, call: Call, name: string, cluster: string)
    requires WellFormed(store) && name in Apply(store, call) && cluster in Apply(store, call)[name].clusters
    ensures cluster == call.cluster || (name in store && cluster in store[name].clusters)
  {
    if name in store {
      WithClusterElements(store[name].clusters, call.cluster);
      WithoutClusterElements(store[name].clusters, call.cluster);
    }
  }

  lemma {:induction false} ClustersComeFromCalls(calls: seq<Call>, name: string)
    requires name in Replay(calls)
    ensures forall c :: c in Replay(calls)[name].clusters ==> exists call :: call in calls && call.cluster == c
  {
    var earlier, last := calls[..|calls| - 1], calls[|calls| - 1];
    assert last in calls && forall c :: c in earlier ==> c in calls;
    ReplayWellFormed(earlier);
    if name in Replay(earlier) {
      ClustersComeFromCalls(earlier, name);
    }
    forall c | c in Replay(calls)[name].clusters ensures exists call :: call in calls && call.cluster == c {
      ListedBefore(Replay(earlier), last, name, c);
    }
  }

  /** Equal annotations mean equal cluster lists, over any two traces. */
  lemma AnnotationsDistinguishLists(calls1: seq<Call>, calls2: seq<Call>, name1: string, name2: string)
    requires forall c :: c in calls1 || c in calls2 ==> ',' !in c.cluster
    requires name1 in Replay(calls1) && name2 in Replay(calls2)
    requires CLUSTERS_ANNOTATION in Replay(calls1)[name1].annotations
             && CLUSTERS_ANNOTATION in Replay(calls2)[name2].annotations
    ensures Replay(calls1)[name1].annotations[CLUSTERS_ANNOTATION] ==
              Replay(calls2)[name2].annotations[CLUSTERS_ANNOTATION]
            <==> Replay(calls1)[name1].clusters == Replay(calls2)[name2].clusters
  {
    AnnotationRoundTrip(calls1, name1);
    AnnotationRoundTrip(calls2, name2);
    ClustersComeFromCalls(calls1, name1);
    ClustersComeFromCalls(calls2, name2);
    ReplayWellFormed(calls1);
    ReplayWellFormed(calls2);
  }
}
