/** Global services aggregated over any number of clusters: one runner a cluster, one shared store
    (global_runner.go, globalservice.go). Each reconcile is one atomic step; split.dfy
    shows that the source needs this. */
module Aggregation {
  import opened Wrappers
  import opened Naming
  import opened Lists
  import opened GlobalStore
  import opened Controller
  import opened Kube

  type Locals = map<string, LocalService>

  // --- One reconcile ------------------------------------------------------------------------------

  /** Crashed stands for the nil dereference in the create branch. */
  datatype Verdict = Reconciled | Failed | Crashed

  datatype Effect = Effect(store: Contents, local: Locals, verdict: Verdict)

  function WriteVerdict(fault: Fault): Verdict {
    if fault.Fine? then Reconciled else Failed
  }

  /** Creates or updates the local service of an entry. */
  function Publish(store: Contents, local: Locals, n: string, remote: Option<RemoteService>, faults: Faults): Effect
    requires n in store
  {
    var e := store[n];
    if faults.look then Effect(store, local, Failed)
    else if n !in local then
      if remote.None? then Effect(store, local, Crashed)
      else if faults.write.Refused? then Effect(store, local, Failed)
      else
        var svc := NewService(e.labels, e.annotations, remote.value.ports, e.headless);
        Effect(store, local[n := svc], WriteVerdict(faults.write))
    else if faults.write.Refused? then Effect(store, local, Failed)
    else
      var svc := WithPorts(local[n].(annotations := e.annotations), e.ports);
      Effect(store, local[n := svc], WriteVerdict(faults.write))
  }

  function Retract(store: Contents, local: Locals, n: string, fault: Fault): Effect {
    if fault.Refused? then Effect(store, local, Failed)
    else Effect(store, local - {n}, WriteVerdict(fault))
  }

  function ReconcileGlobal(selector: map<string, string>, store: Contents, local: Locals, cluster: string, k: Key,
                           remote: Option<RemoteService>, faults: Faults): Effect
  {
    var n := GlobalName(k);
    if faults.read then Effect(store, local, Failed)
    else
      match remote
      case None =>
        var after := DeleteTarget(store, k, cluster);
        if n in after then Publish(after, local, n, None, faults) else Retract(after, local, n, faults.write)
      case Some(svc) =>
        match AddTarget(store, svc, cluster, MatchSelector(selector, svc.labels))
        case Err(_) => Effect(store, local, Failed)
        case Ok(after) =>
          if n in after then Publish(after, local, n, remote, faults) else Effect(after, local, Failed)
  }

  /** Whether a service carries every label of the routing selector. */
  ghost predicate Routed(selector: map<string, string>, svc: RemoteService) {
    forall l :: l in selector ==> l in svc.labels && svc.labels[l] == selector[l]
  }

  /** The store is asked unless the cache read failed, and takes the call unless the service is of another
      kind than the entry. */
  ghost predicate Taken(store: Contents, n: string, remote: Option<RemoteService>, faults: Faults) {
    && !faults.read
    && (remote.Some? && n in store ==> (store[n].headless <==> remote.value.clusterIP == "None"))
  }

  /** The store side of a reconcile: the cluster goes onto the entry with its service, hinted exactly if
      the service is routed, or is taken off. */
  lemma StoreSideExact(selector: map<string, string>, store: Contents, local: Locals, cluster: string, k: Key,
                       remote: Option<RemoteService>, faults: Faults)
    requires remote.Some? ==> remote.value.key == k
    ensures var effect := ReconcileGlobal(selector, store, local, cluster, k, remote, faults);
            && (!Taken(store, GlobalName(k), remote, faults) ==> effect == Effect(store, local, Failed))
            && (Taken(store, GlobalName(k), remote, faults) && remote.Some? ==>
                  AddTarget(store, remote.value, cluster, Routed(selector, remote.value)) == Ok(effect.store))
            && (Taken(store, GlobalName(k), remote, faults) && remote.None? ==>
                  effect.store == DeleteTarget(store, k, cluster))
  {
    if remote.Some? {
      AddExact(store, remote.value, cluster, MatchSelector(selector, remote.value.labels));
      assert MatchSelector(selector, remote.value.labels) == Routed(selector, remote.value);
    }
  }

  // --- The system of all runners --------------------------------------------------------------------

  datatype At = At(cluster: string, key: Key)

  /** The configured clusters, by their distinct names, and the keys that may ever be seen. */
  datatype Config = Config(selector: map<string, string>, clusters: set<string>, ghost keys: iset<Key>)

  /** `pending` stands for the queues: the keys of each runner that are bound to be reconciled. Any
      seen key may be reconciled at any time; queued.dfy shows that real queues are an instance. */
  datatype System = System(
    store: Contents,
    cache: map<At, RemoteService>,
    seen: set<At>,
    pending: set<At>,
    local: Locals)

  datatype Action =
    | Change(at: At, svc: Option<RemoteService>)
    | Reconcile(at: At, faults: Faults)
    | Outside(name: string, obj: Option<LocalService>)

  function Cached(sys: System, at: At): Option<RemoteService> {
    if at in sys.cache then Some(sys.cache[at]) else None
  }

  ghost predicate CacheWellFormed(cfg: Config, sys: System) {
    && (forall at :: at in sys.cache ==> sys.cache[at].key == at.key)
    && (forall at :: at in sys.seen ==> at.key in cfg.keys && at.cluster in cfg.clusters)
    && sys.cache.Keys <= sys.seen
    && sys.pending <= sys.seen
  }

  function EffectOf(cfg: Config, sys: System, at: At, faults: Faults): Effect {
    ReconcileGlobal(cfg.selector, sys.store, sys.local, at.cluster, at.key, Cached(sys, at), faults)
  }

  ghost predicate Enabled(cfg: Config, sys: System, a: Action) {
    match a
    case Change(at, svc) =>
      && at.key in cfg.keys && at.cluster in cfg.clusters
      && (if svc.Some? then svc.value.key == at.key else at in sys.cache)
    case Reconcile(at, faults) =>
      at in sys.seen && !EffectOf(cfg, sys, at, faults).verdict.Crashed?
    case Outside(n, _) => !InSpace(GLOBAL_PREFIX, n)
  }

  ghost function Next(cfg: Config, sys: System, a: Action): System
    requires Enabled(cfg, sys, a)
  {
    match a
    case Change(at, svc) =>
      sys.(cache := if svc.Some? then sys.cache[at := svc.value] else sys.cache - {at},
           seen := sys.seen + {at}, pending := sys.pending + {at})
    case Reconcile(at, faults) =>
      var effect := EffectOf(cfg, sys, at, faults);
      sys.(store := effect.store, local := effect.local,
           pending := if effect.verdict.Reconciled? then sys.pending - {at} else sys.pending + {at})
    case Outside(n, obj) =>
      sys.(local := if obj.Some? then sys.local[n := obj.value] else sys.local - {n})
  }

  /** Local services may be left over from an earlier run; the store starts empty. */
  ghost predicate Initial(sys: System) {
    sys.store == map[] && sys.cache == map[] && sys.seen == {} && sys.pending == {}
  }

  ghost predicate ValidRun(cfg: Config, sys: System, run: seq<Action>)
    decreases |run|
  {
    run != [] ==> Enabled(cfg, sys, run[0]) && ValidRun(cfg, Next(cfg, sys, run[0]), run[1..])
  }

  ghost function Final(cfg: Config, sys: System, run: seq<Action>): System
    requires ValidRun(cfg, sys, run)
    decreases |run|
  {
    if run == [] then sys else Final(cfg, Next(cfg, sys, run[0]), run[1..])
  }

  // --- The invariant of the whole system ------------------------------------------------------------

  ghost predicate PendingSomewhere(sys: System, k: Key) {
    exists c :: At(c, k) in sys.pending
  }

  ghost predicate LocalAgrees(store: Contents, local: Locals, k: Key) {
    var n := GlobalName(k);
    && (n in local <==> n in store)
    && (n in store ==>
          && local[n].ports == store[n].ports
          && local[n].annotations == store[n].annotations
          && local[n].selector == map[])
  }

  ghost predicate MembershipInv(sys: System) {
    forall at :: at in sys.seen ==>
      at in sys.pending || (IsMember(sys.store, at.key, at.cluster) <==> at in sys.cache)
  }

  ghost predicate LocalInv(sys: System) {
    forall at :: at in sys.seen ==>
      PendingSomewhere(sys, at.key) || LocalAgrees(sys.store, sys.local, at.key)
  }

  ghost predicate EntriesSeen(sys: System) {
    forall n, c :: n in sys.store && c in sys.store[n].clusters ==> At(c, sys.store[n].key) in sys.seen
  }

  ghost predicate Inv(cfg: Config, sys: System) {
    CacheWellFormed(cfg, sys) && WellFormed(sys.store) && EntriesSeen(sys) && MembershipInv(sys) && LocalInv(sys)
  }

  ghost predicate SameExcept<T(!new)>(m1: map<string, T>, m2: map<string, T>, n: string) {
    forall x :: x != n ==> (x in m1 <==> x in m2) && (x in m1 ==> m1[x] == m2[x])
  }

  function CallOf(selector: map<string, string>, cluster: string, k: Key, remote: Option<RemoteService>): Call {
    if remote.Some? then Add(remote.value, cluster, MatchSelector(selector, remote.value.labels))
        else Delete(k, cluster)
  }

  lemma ApplyFrame(store: Contents, call: Call)
    ensures SameExcept(Apply(store, call), store, GlobalName(call.Target()))
  {
  }

  lemma PublishReadsOneEntry(store: Contents, local: Locals, n: string, remote: Option<RemoteService>, faults: Faults)
    requires n in store
    ensures Publish(store, local, n, remote, faults) ==
            Publish(map[n := store[n]], local, n, remote, faults).(store := store)
  {
  }

  /** A reconcile as two halves: one call of the store, then the local service. */
  lemma TwoHalves(selector: map<string, string>, store: Contents, local: Locals, cluster: string, k: Key,
                  remote: Option<RemoteService>, faults: Faults)
    requires (remote.Some? ==> remote.value.key == k) && !faults.read
    ensures var call, n := CallOf(selector, cluster, k, remote), GlobalName(k);
            ReconcileGlobal(selector, store, local, cluster, k, remote, faults) ==
            if !Succeeds(store, call) then Effect(Apply(store, call), local, Failed)
            else if n in Apply(store, call) then Publish(Apply(store, call), local, n, remote, faults)
            else Retract(Apply(store, call), local, n, faults.write)
  {
  }

  lemma PublishExact(store: Contents, local: Locals, n: string, remote: Option<RemoteService>, faults: Faults)
    requires n in store && (remote.Some? ==> remote.value.ports == store[n].ports)
    ensures var effect := Publish(store, local, n, remote, faults);
            var crash := !faults.look && n !in local && remote.None?;
            && effect.store == store
            && (effect.verdict.Crashed? <==> crash)
            && (effect.verdict.Reconciled? <==> !faults.look && !crash && faults.write.Fine?)
            && (faults.look || crash || faults.write.Refused? ==> effect.local == local)
            && (!faults.look && !crash && !faults.write.Refused? ==>
                  && n in effect.local && effect.local == local[n := effect.local[n]]
                  && effect.local[n].ports == store[n].ports
                  && effect.local[n].annotations == store[n].annotations
                  && effect.local[n].selector == map[]
                  && (n in local ==>
                        && effect.local[n].labels == local[n].labels
                        && effect.local[n].clusterIP == local[n].clusterIP)
                  && (n !in local ==>
                        && effect.local[n].labels == store[n].labels
                        && effect.local[n].clusterIP == if store[n].headless then "None" else ""))
  {
  }

  lemma CallTaken(selector: map<string, string>, store: Contents, cluster: string, k: Key,
                  remote: Option<RemoteService>, faults: Faults)
    requires (remote.Some? ==> remote.value.key == k) && Taken(store, GlobalName(k), remote, faults)
    ensures var call, n := CallOf(selector, cluster, k, remote), GlobalName(k);
            && Succeeds(store, call)
            && (remote.Some? ==> n in Apply(store, call) && Apply(store, call)[n].ports == remote.value.ports)
  {
    if remote.Some? {
      AddExact(store, remote.value, cluster, MatchSelector(selector, remote.value.labels));
    }
  }

  /** The local side of a reconcile that the store took. Without an entry the local service is deleted. With
      one, a service that is there is updated to the ports and annotations of the entry and keeps its
      labels and cluster IP; one that is not is made from the entry, of its kind, and without an object to
      make it from the reconcile crashes. Calls that fail leave all as it was. */
  lemma LocalSideExact(selector: map<string, string>, store: Contents, local: Locals, cluster: string, k: Key,
                       remote: Option<RemoteService>, faults: Faults)
    requires (remote.Some? ==> remote.value.key == k) && Taken(store, GlobalName(k), remote, faults)
    ensures var effect, n := ReconcileGlobal(selector, store, local, cluster, k, remote, faults), GlobalName(k);
            var looked := n in effect.store ==> !faults.look;
            var crash := n in effect.store && looked && n !in local && remote.None?;
            && (effect.verdict.Crashed? <==> crash)
            && (effect.verdict.Reconciled? <==> looked && !crash && faults.write.Fine?)
            && (!looked || crash || faults.write.Refused? ==> effect.local == local)
            && (forall x :: x != n ==> (x in effect.local <==> x in local))
            && (forall x :: x != n && x in local ==> effect.local[x] == local[x])
            && (looked && !crash && !faults.write.Refused? ==>
                  && (n in effect.local <==> n in effect.store)
                  && (n in effect.store ==>
                        && effect.local[n].ports == effect.store[n].ports
                        && effect.local[n].annotations == effect.store[n].annotations
                        && effect.local[n].selector == map[]
                        && (n in local ==>
                              && effect.local[n].labels == local[n].labels
                              && effect.local[n].clusterIP == local[n].clusterIP)
                        && (n !in local ==>
                              && effect.local[n].labels == effect.store[n].labels
                              && effect.local[n].clusterIP == if effect.store[n].headless then "None" else "")))
  {
    var call, n := CallOf(selector, cluster, k, remote), GlobalName(k);
    var after := Apply(store, call);
    TwoHalves(selector, store, local, cluster, k, remote, faults);
    CallTaken(selector, store, cluster, k, remote, faults);
    if n in after {
      PublishExact(after, local, n, remote, faults);
    }
  }

  /** The store side of a reconcile is one call of the store. */
  lemma StoreSide(selector: map<string, string>, store: Contents, local: Locals, cluster: string, k: Key,
                  remote: Option<RemoteService>, faults: Faults)
    requires remote.Some? ==> remote.value.key == k
    ensures var effect := ReconcileGlobal(selector, store, local, cluster, k, remote, faults);
            var call := CallOf(selector, cluster, k, remote);
            && (effect.store == store || effect.store == Apply(store, call))
            && (effect.verdict.Reconciled? ==> effect.store == Apply(store, call) && Succeeds(store, call))
  {
  }

  /** Its local side is confined to the name of its key. */
  lemma LocalSide(selector: map<string, string>, store: Contents, local: Locals, cluster: string, k: Key,
                  remote: Option<RemoteService>, faults: Faults)
    requires remote.Some? ==> remote.value.key == k
    ensures SameExcept(ReconcileGlobal(selector, store, local, cluster, k, remote, faults).local, local, GlobalName(k))
  {
  }

  lemma StoreEffect(selector: map<string, string>, store: Contents, local: Locals, cluster: string, k: Key,
                    remote: Option<RemoteService>, faults: Faults)
    requires WellFormed(store) && (remote.Some? ==> remote.value.key == k)
    ensures var effect := ReconcileGlobal(selector, store, local, cluster, k, remote, faults);
            var call := CallOf(selector, cluster, k, remote);
            && (effect.store == store || effect.store == Apply(store, call))
            && (effect.verdict.Reconciled? ==> effect.store == Apply(store, call) && Succeeds(store, call))
            && WellFormed(effect.store)
            && SameExcept(effect.store, store, GlobalName(k))
            && SameExcept(effect.local, local, GlobalName(k))
  {
    StoreSide(selector, store, local, cluster, k, remote, faults);
    LocalSide(selector, store, local, cluster, k, remote, faults);
    ApplyWellFormed(store, CallOf(selector, cluster, k, remote));
    ApplyFrame(store, CallOf(selector, cluster, k, remote));
  }

  lemma PublishAgrees(store: Contents, local: Locals, k: Key, remote: Option<RemoteService>, faults: Faults)
    requires GlobalName(k) in store && (remote.Some? ==> remote.value.ports == store[GlobalName(k)].ports)
    ensures var effect := Publish(store, local, GlobalName(k), remote, faults);
            effect.verdict.Reconciled? ==> LocalAgrees(effect.store, effect.local, k)
  {
  }

  /** A successful reconcile leaves the local service in agreement with the store. */
  lemma SuccessAgrees(selector: map<string, string>, store: Contents, local: Locals, cluster: string, k: Key,
                      remote: Option<RemoteService>, faults: Faults)
    requires remote.Some? ==> remote.value.key == k
    ensures var effect := ReconcileGlobal(selector, store, local, cluster, k, remote, faults);
            effect.verdict.Reconciled? ==> LocalAgrees(effect.store, effect.local, k)
  {
    var n, call := GlobalName(k), CallOf(selector, cluster, k, remote);
    var after := Apply(store, call);
    if n in after && Succeeds(store, call) {
      PublishAgrees(after, local, k, remote, faults);
    }
  }

  /** A reconcile touches the membership of its own key and cluster only. */
  lemma MembershipEffect(selector: map<string, string>, store: Contents, local: Locals, cluster: string, k: Key,
                         remote: Option<RemoteService>, faults: Faults, k': Key, c': string)
    requires WellFormed(store) && (remote.Some? ==> remote.value.key == k)
    requires GlobalName(k) == GlobalName(k') ==> k == k'
    ensures var effect := ReconcileGlobal(selector, store, local, cluster, k, remote, faults);
            && (k' != k || c' != cluster ==> (IsMember(effect.store, k', c') <==> IsMember(store, k', c')))
            && (effect.verdict.Reconciled? && k' == k && c' == cluster ==>
                (IsMember(effect.store, k', c') <==> remote.Some?))
  {
    StoreEffect(selector, store, local, cluster, k, remote, faults);
    var call := CallOf(selector, cluster, k, remote);
    ApplyMembership(store, call, k', c');
  }

  lemma KeepsLocalAgreement(cfg: Config, sys: System, at: At, faults: Faults, o: At)
    requires CollisionFree(cfg.keys) && Inv(cfg, sys) && Enabled(cfg, sys, Reconcile(at, faults)) && o in sys.seen
    ensures var after := Next(cfg, sys, Reconcile(at, faults));
            PendingSomewhere(after, o.key) || LocalAgrees(after.store, after.local, o.key)
  {
    var after := Next(cfg, sys, Reconcile(at, faults));
    var remote := Cached(sys, at);
    StoreEffect(cfg.selector, sys.store, sys.local, at.cluster, at.key, remote, faults);
    SuccessAgrees(cfg.selector, sys.store, sys.local, at.cluster, at.key, remote, faults);
    CollisionFreeNames(cfg.keys, "", at.key, o.key);
    if o.key == at.key {
      assert at in after.pending ==> At(at.cluster, o.key) in after.pending;
    } else if c :| At(c, o.key) in sys.pending {
      assert At(c, o.key) in after.pending;
    }
  }

  lemma EntriesStaySeen(cfg: Config, sys: System, at: At, faults: Faults, n: string, c: string)
    requires CollisionFree(cfg.keys) && Inv(cfg, sys) && Enabled(cfg, sys, Reconcile(at, faults))
    requires var after := Next(cfg, sys, Reconcile(at, faults)); n in after.store && c in after.store[n].clusters
    ensures At(c, Next(cfg, sys, Reconcile(at, faults)).store[n].key) in sys.seen
  {
    var after := Next(cfg, sys, Reconcile(at, faults));
    var remote := Cached(sys, at);
    StoreEffect(cfg.selector, sys.store, sys.local, at.cluster, at.key, remote, faults);
    if n == GlobalName(at.key) {
      if n in sys.store {
        var k := sys.store[n].key;
        var c0 := sys.store[n].clusters[0];
        assert At(c0, k) in sys.seen && k in cfg.keys;
        CollisionFreeNames(cfg.keys, "", at.key, k);
        WithClusterElements(sys.store[n].clusters, at.cluster);
        WithoutClusterElements(sys.store[n].clusters, at.cluster);
      }
    }
  }

  lemma ReconcileStep(cfg: Config, sys: System, at: At, faults: Faults)
    requires CollisionFree(cfg.keys) && Inv(cfg, sys) && Enabled(cfg, sys, Reconcile(at, faults))
    ensures Inv(cfg, Next(cfg, sys, Reconcile(at, faults)))
  {
    var after := Next(cfg, sys, Reconcile(at, faults));
    var remote := Cached(sys, at);
    StoreEffect(cfg.selector, sys.store, sys.local, at.cluster, at.key, remote, faults);
    SuccessAgrees(cfg.selector, sys.store, sys.local, at.cluster, at.key, remote, faults);
    forall o | o in sys.seen
      ensures o in after.pending || (IsMember(after.store, o.key, o.cluster) <==> o in after.cache)
      ensures PendingSomewhere(after, o.key) || LocalAgrees(after.store, after.local, o.key)
    {
      CollisionFreeNames(cfg.keys, "", at.key, o.key);
      MembershipEffect(cfg.selector, sys.store, sys.local, at.cluster, at.key, remote, faults, o.key, o.cluster);
      KeepsLocalAgreement(cfg, sys, at, faults, o);
    }
    forall n, c | n in after.store && c in after.store[n].clusters
      ensures At(c, after.store[n].key) in after.seen
    {
      EntriesStaySeen(cfg, sys, at, faults, n, c);
    }
  }

  lemma InvStep(cfg: Config, sys: System, a: Action)
    requires CollisionFree(cfg.keys) && Inv(cfg, sys) && Enabled(cfg, sys, a)
    ensures Inv(cfg, Next(cfg, sys, a))
  {
    var after := Next(cfg, sys, a);
    match a
    case Reconcile(at, faults) => ReconcileStep(cfg, sys, at, faults);
    case Change(at, _) =>
      forall o | o in after.seen
        ensures PendingSomewhere(after, o.key) || LocalAgrees(after.store, after.local, o.key)
      {
        if o.key == at.key {
          assert At(at.cluster, o.key) in after.pending;
        } else if c :| At(c, o.key) in sys.pending {
          assert At(c, o.key) in after.pending;
        }
      }
    case Outside(n, _) =>
      forall o | o in after.seen
        ensures PendingSomewhere(after, o.key) || LocalAgrees(after.store, after.local, o.key)
      {
        NameShapes(GLOBAL_PREFIX, o.key);
        MirrorNameInSpace(GLOBAL_PREFIX, o.key);
        if c :| At(c, o.key) in sys.pending {
          assert At(c, o.key) in after.pending;
        }
      }
  }

  lemma {:induction false} InvRun(cfg: Config, sys: System, run: seq<Action>)
    requires CollisionFree(cfg.keys) && Inv(cfg, sys) && ValidRun(cfg, sys, run)
    ensures Inv(cfg, Final(cfg, sys, run))
    decreases |run|
  {
    if run != [] {
      InvStep(cfg, sys, run[0]);
      InvRun(cfg, Next(cfg, sys, run[0]), run[1..]);
    }
  }

  /** In every reachable state, for every cluster and every key it ever saw: the key is pending
      there, or the cluster is listed exactly when the key is in its cache; and unless the key is
      pending somewhere, the local service exists exactly when the entry does and carries it. */
  lemma GlobalInvariant(cfg: Config, sys: System, run: seq<Action>, at: At)
    requires CollisionFree(cfg.keys) && Initial(sys) && ValidRun(cfg, sys, run)
    requires at in Final(cfg, sys, run).seen
    ensures var end := Final(cfg, sys, run);
            && (at in end.pending || (IsMember(end.store, at.key, at.cluster) <==> at in end.cache))
            && (PendingSomewhere(end, at.key) || LocalAgrees(end.store, end.local, at.key))
            && WellFormed(end.store)
  {
    InvRun(cfg, sys, run);
  }

  ghost predicate CachedSomewhere(sys: System, k: Key) {
    exists c :: At(c, k) in sys.cache
  }

  lemma EntryKeyIsItsOwn(cfg: Config, sys: System, at: At)
    requires CollisionFree(cfg.keys) && Inv(cfg, sys) && at in sys.seen && GlobalName(at.key) in sys.store
    ensures sys.store[GlobalName(at.key)].key == at.key
  {
    var e := sys.store[GlobalName(at.key)];
    assert At(e.clusters[0], e.key) in sys.seen;
    assert At(e.clusters[0], e.key).key in cfg.keys;
    CollisionFreeNames(cfg.keys, "", at.key, e.key);
  }

  /** At rest the clusters listed for a key are those that have it, and the local service of the
      key exists exactly when some cluster has it. */
  lemma AtRest(cfg: Config, sys: System, at: At)
    requires CollisionFree(cfg.keys) && Inv(cfg, sys) && sys.pending == {} && at in sys.seen
    ensures var n := GlobalName(at.key);
            && (n in sys.local <==> CachedSomewhere(sys, at.key))
            && (n in sys.store <==> CachedSomewhere(sys, at.key))
            && LocalAgrees(sys.store, sys.local, at.key)
            && (n in sys.store ==>
                  && sys.store[n].key == at.key
                  && forall c :: c in sys.store[n].clusters <==> At(c, at.key) in sys.cache)
  {
    var n, k := GlobalName(at.key), at.key;
    if n in sys.store {
      EntryKeyIsItsOwn(cfg, sys, at);
      var c := sys.store[n].clusters[0];
      assert At(c, k) in sys.seen;
      assert At(c, k) in sys.cache;
      forall c ensures c in sys.store[n].clusters <==> At(c, k) in sys.cache {
        if c in sys.store[n].clusters {
          assert At(c, k) in sys.seen;
        }
      }
    }
    if c :| At(c, k) in sys.cache {
      assert IsMember(sys.store, At(c, k).key, At(c, k).cluster);
    }
  }

  lemma Prepend(cfg: Config, sys: System, a: Action, rest: seq<Action>)
    requires Enabled(cfg, sys, a) && ValidRun(cfg, Next(cfg, sys, a), rest)
    ensures ValidRun(cfg, sys, [a] + rest)
    ensures Final(cfg, sys, [a] + rest) == Final(cfg, Next(cfg, sys, a), rest)
  {
  }

  // --- The create branch ------------------------------------------------------------------------------

  const NO_FAULTS := Faults(false, false, Fine)

  /** The nil remote service is dereferenced exactly when the cluster's own service is gone, another
      cluster keeps the entry alive, and the local service is found missing. */
  lemma CrashesExactly(selector: map<string, string>, store: Contents, local: Locals, cluster: string, k: Key,
                       remote: Option<RemoteService>, faults: Faults)
    requires WellFormed(store) && (remote.Some? ==> remote.value.key == k)
    ensures ReconcileGlobal(selector, store, local, cluster, k, remote, faults).verdict.Crashed? <==>
            && remote.None? && !faults.read && !faults.look
            && GlobalName(k) !in local
            && exists c :: c != cluster && IsMember(store, k, c)
  {
    var n := GlobalName(k);
    if n in store {
      var others := WithoutCluster(store[n].clusters, cluster);
      WithoutClusterElements(store[n].clusters, cluster);
      if others != [] {
        assert others[0] in others && IsMember(store, k, others[0]);
      }
    }
  }

  /** A lookup or a create that fails while the local service is missing. */
  ghost predicate Shaky(sys: System, a: Action) {
    && a.Reconcile? && a.at in sys.cache && GlobalName(a.at.key) !in sys.local
    && !a.faults.read && (a.faults.look || a.faults.write.Refused?)
  }

  ghost predicate Steady(cfg: Config, sys: System, run: seq<Action>)
    requires ValidRun(cfg, sys, run)
    decreases |run|
  {
    run != [] ==> !Shaky(sys, run[0]) && Steady(cfg, Next(cfg, sys, run[0]), run[1..])
  }

  ghost predicate Covered(sys: System) {
    forall n :: n in sys.store ==> n in sys.local
  }

  ghost predicate CoveredThroughout(cfg: Config, sys: System, run: seq<Action>)
    requires ValidRun(cfg, sys, run)
    decreases |run|
  {
    Covered(sys) && (run != [] ==> CoveredThroughout(cfg, Next(cfg, sys, run[0]), run[1..]))
  }

  lemma CoveredReconcile(selector: map<string, string>, store: Contents, local: Locals, cluster: string, k: Key,
                         remote: Option<RemoteService>, faults: Faults)
    requires remote.Some? ==> remote.value.key == k
    requires GlobalName(k) in store ==> GlobalName(k) in local
    ensures var effect, n := ReconcileGlobal(selector, store, local, cluster, k, remote, faults), GlobalName(k);
            (n in effect.store ==> n in effect.local) <==>
            !(n !in local && remote.Some? && !faults.read && (faults.look || faults.write.Refused?))
  {
  }

  /** Such a failure is the one way an entry comes to lack its local service. */
  lemma CoveredStep(cfg: Config, sys: System, a: Action)
    requires CollisionFree(cfg.keys) && Inv(cfg, sys) && Covered(sys) && Enabled(cfg, sys, a)
    ensures Covered(Next(cfg, sys, a)) <==> !Shaky(sys, a)
  {
    if a.Reconcile? {
      var at, faults := a.at, a.faults;
      StoreEffect(cfg.selector, sys.store, sys.local, at.cluster, at.key, Cached(sys, at), faults);
      CoveredReconcile(cfg.selector, sys.store, sys.local, at.cluster, at.key, Cached(sys, at), faults);
    } else if a.Outside? && a.name in sys.store {
      var e := sys.store[a.name];
      NameShapes(GLOBAL_PREFIX, e.key);
      MirrorNameInSpace(GLOBAL_PREFIX, e.key);
    }
  }

  lemma {:induction false} CoveredRun(cfg: Config, sys: System, run: seq<Action>)
    requires CollisionFree(cfg.keys) && Inv(cfg, sys) && Covered(sys) && ValidRun(cfg, sys, run)
    ensures CoveredThroughout(cfg, sys, run) <==> Steady(cfg, sys, run)
    ensures Steady(cfg, sys, run) ==> Covered(Final(cfg, sys, run)) && Inv(cfg, Final(cfg, sys, run))
    decreases |run|
  {
    if run != [] {
      InvStep(cfg, sys, run[0]);
      CoveredStep(cfg, sys, run[0]);
      if !Shaky(sys, run[0]) {
        CoveredRun(cfg, Next(cfg, sys, run[0]), run[1..]);
      }
    }
  }

  /** Over every run: each entry has a local service all along exactly when no such failure occurs. */
  lemma CoveredExactly(cfg: Config, sys: System, run: seq<Action>)
    requires CollisionFree(cfg.keys) && Initial(sys) && ValidRun(cfg, sys, run)
    ensures CoveredThroughout(cfg, sys, run) <==> Steady(cfg, sys, run)
  {
    CoveredRun(cfg, sys, run);
  }

  /** In every run without such a failure each entry has a local service, and no reconcile of any
      runner can crash next, whatever its calls come to. */
  lemma CreateBranchSafe(cfg: Config, sys: System, run: seq<Action>, at: At, faults: Faults)
    requires CollisionFree(cfg.keys) && Initial(sys) && ValidRun(cfg, sys, run) && Steady(cfg, sys, run)
    ensures Covered(Final(cfg, sys, run))
    ensures at in Final(cfg, sys, run).seen ==> !EffectOf(cfg, Final(cfg, sys, run), at, faults).verdict.Crashed?
  {
    CoveredRun(cfg, sys, run);
    var end := Final(cfg, sys, run);
    CrashesExactly(cfg.selector, end.store, end.local, at.cluster, at.key, Cached(end, at), faults);
  }

  ghost predicate OnlyChanges(run: seq<Action>) {
    forall a :: a in run ==> a.Change?
  }

  ghost predicate CrashesAfter(cfg: Config, sys: System, run: seq<Action>, at: At, faults: Faults) {
    OnlyChanges(run) && ValidRun(cfg, sys, run) &&
    var end := Final(cfg, sys, run);
    at in end.seen && EffectOf(cfg, end, at, faults).verdict.Crashed?
  }

  /** Some changes of the caches lead to a reconcile that crashes. */
  ghost predicate CrashLooms(cfg: Config, sys: System) {
    exists run, at, faults :: CrashesAfter(cfg, sys, run, at, faults)
  }

  lemma {:induction false} ChangesKeepServices(cfg: Config, sys: System, run: seq<Action>)
    requires ValidRun(cfg, sys, run) && OnlyChanges(run)
    ensures Final(cfg, sys, run).store == sys.store && Final(cfg, sys, run).local == sys.local
    decreases |run|
  {
    if run != [] {
      assert run[0] in run && forall a :: a in run[1..] ==> a in run;
      ChangesKeepServices(cfg, Next(cfg, sys, run[0]), run[1..]);
    }
  }

  /** A service that comes and goes in one cluster. */
  function Blip(cluster: string, svc: RemoteService): seq<Action> {
    [Change(At(cluster, svc.key), Some(svc)), Change(At(cluster, svc.key), None)]
  }

  /** Without its local service an entry crashes any runner, other than one it lists, that sees the
      service come and go. */
  lemma UncoveredCrashes(cfg: Config, sys: System, svc: RemoteService, a: string, b: string)
    requires WellFormed(sys.store) && svc.key in cfg.keys && b in cfg.clusters
    requires IsMember(sys.store, svc.key, a) && a != b && GlobalName(svc.key) !in sys.local
    ensures ValidRun(cfg, sys, Blip(b, svc)) && OnlyChanges(Blip(b, svc))
    ensures CrashesAfter(cfg, sys, Blip(b, svc), At(b, svc.key), NO_FAULTS)
    ensures At(b, svc.key) in Final(cfg, sys, Blip(b, svc)).pending
  {
    var at := At(b, svc.key);
    var come, go := Change(at, Some(svc)), Change(at, None);
    var s1 := Next(cfg, sys, come);
    Prepend(cfg, s1, go, []);
    Prepend(cfg, sys, come, [go]);
    assert Blip(b, svc) == [come] + ([go] + []);
    var end := Next(cfg, s1, go);
    CrashesExactly(cfg.selector, end.store, end.local, b, svc.key, None, NO_FAULTS);
  }

  lemma EntryWithoutService(cfg: Config, sys: System, n: string)
    requires Inv(cfg, sys) && |cfg.clusters| >= 2 && n in sys.store && n !in sys.local
    ensures CrashLooms(cfg, sys)
  {
    var k, a := sys.store[n].key, sys.store[n].clusters[0];
    assert At(a, k) in sys.seen;
    assert |cfg.clusters - {a}| >= 1;
    var b :| b in cfg.clusters - {a};
    var svc := RemoteService(k, [], "", map[]);
    UncoveredCrashes(cfg, sys, svc, a, b);
    assert CrashesAfter(cfg, sys, Blip(b, svc), At(b, k), NO_FAULTS);
  }

  lemma CrashNeedsMissingService(cfg: Config, sys: System, run: seq<Action>, at: At, faults: Faults)
    requires CollisionFree(cfg.keys) && Inv(cfg, sys) && CrashesAfter(cfg, sys, run, at, faults)
    ensures !Covered(sys)
  {
    var end := Final(cfg, sys, run);
    ChangesKeepServices(cfg, sys, run);
    InvRun(cfg, sys, run);
    CrashesExactly(cfg.selector, end.store, end.local, at.cluster, at.key, Cached(end, at), faults);
  }

  /** A crash can come next, after nothing but changes of the caches, exactly when some entry lacks its
      local service. There is always a second cluster: the configuration needs a remote one. */
  lemma CrashLoomsExactly(cfg: Config, sys: System)
    requires CollisionFree(cfg.keys) && Inv(cfg, sys) && |cfg.clusters| >= 2
    ensures CrashLooms(cfg, sys) <==> !Covered(sys)
  {
    if n :| n in sys.store && n !in sys.local {
      EntryWithoutService(cfg, sys, n);
    }
    if run, at, faults :| CrashesAfter(cfg, sys, run, at, faults) {
      CrashNeedsMissingService(cfg, sys, run, at, faults);
    }
  }

  /** One failed lookup or create is enough, whenever it happens: a service of another cluster that
      comes and goes then crashes that cluster's runner. */
  lemma OneFailureCrashes(cfg: Config, sys: System, a: Action, b: string, svc: RemoteService)
    requires CollisionFree(cfg.keys) && Inv(cfg, sys) && Covered(sys) && Enabled(cfg, sys, a) && Shaky(sys, a)
    requires b in cfg.clusters && b != a.at.cluster && svc.key == a.at.key
    ensures ValidRun(cfg, sys, [a] + Blip(b, svc))
    ensures var end := Final(cfg, sys, [a] + Blip(b, svc));
            At(b, svc.key) in end.pending && EffectOf(cfg, end, At(b, svc.key), NO_FAULTS).verdict.Crashed?
  {
    var after := Next(cfg, sys, a);
    InvStep(cfg, sys, a);
    UncoveredCrashes(cfg, after, svc, a.at.cluster, b);
    Prepend(cfg, sys, a, Blip(b, svc));
  }

  lemma {:induction false} LastAddIsACall(calls: seq<Call>, key: Key)
    ensures LastAdd(calls, key).Some? ==> LastAdd(calls, key).value in calls
  {
    if calls != [] {
      LastAddIsACall(calls[..|calls| - 1], key);
    }
  }

  /** Over every trace of the runners' calls, an entry is hinted exactly if the service of the last add that
      succeeded carries every label of the routing selector. */
  lemma HintsFollowSelector(selector: map<string, string>, calls: seq<Call>, key: Key)
    requires forall call :: call in calls && call.Add? ==> call.hints == MatchSelector(selector, call.svc.labels)
    requires CollisionFree(Targets(calls) + iset{key}) && GlobalName(key) in Replay(calls)
    ensures var e, add := Replay(calls)[GlobalName(key)], LastAdd(calls, key);
            && add.Some? && add.value.Add?
            && e.ports == add.value.svc.ports && HintsAre(e.annotations, Routed(selector, add.value.svc))
  {
    LastAddWins(calls, key);
    LastAddIsACall(calls, key);
    var add := LastAdd(calls, key).value;
    assert MatchSelector(selector, add.svc.labels) == Routed(selector, add.svc);
  }

  // --- Confluence -------------------------------------------------------------------------------------

  /** What all definitions of a key have to agree on (README.md, "Fungible values"). */
  datatype Definition = Definition(ports: seq<ServicePort>, headless: bool, hints: bool)

  predicate Conforms(cfg: Config, defs: Key -> Definition, svc: RemoteService) {
    Definition(svc.ports, svc.clusterIP == "None", MatchSelector(cfg.selector, svc.labels)) == defs(svc.key)
  }

  ghost predicate Uniform(cfg: Config, defs: Key -> Definition, run: seq<Action>) {
    forall a :: a in run && a.Change? && a.svc.Some? ==> Conforms(cfg, defs, a.svc.value)
  }

  predicate EntryConforms(defs: Key -> Definition, e: Entry) {
    && e.ports == defs(e.key).ports
    && e.headless == defs(e.key).headless
    && e.annotations == WithClusters(HintAnnotations(defs(e.key).hints), e.clusters)
  }

  predicate LocalConforms(defs: Key -> Definition, k: Key, l: LocalService) {
    && l.labels == GLOBAL_LABELS
    && l.ports == defs(k).ports && l.selector == map[]
    && l.clusterIP == (if defs(k).headless then "None" else "")
  }

  ghost predicate LocalIsOurs(defs: Key -> Definition, sys: System, n: string)
    requires n in sys.local
  {
    exists at :: at in sys.seen && n == GlobalName(at.key) && LocalConforms(defs, at.key, sys.local[n])
  }

  ghost predicate UniformInv(cfg: Config, defs: Key -> Definition, sys: System) {
    && (forall at :: at in sys.cache ==> Conforms(cfg, defs, sys.cache[at]))
    && (forall n :: n in sys.store ==> EntryConforms(defs, sys.store[n]))
    && (forall n :: n in sys.local && InSpace(GLOBAL_PREFIX, n) ==> LocalIsOurs(defs, sys, n))
  }

  lemma UniformCall(cfg: Config, defs: Key -> Definition, store: Contents, cluster: string, k: Key,
                    remote: Option<RemoteService>)
    requires forall n :: n in store ==> EntryConforms(defs, store[n])
    requires GlobalName(k) in store ==> store[GlobalName(k)].key == k
    requires remote.Some? ==> remote.value.key == k && Conforms(cfg, defs, remote.value)
    ensures var call := CallOf(cfg.selector, cluster, k, remote);
            && Succeeds(store, call)
            && forall n :: n in Apply(store, call) ==> EntryConforms(defs, Apply(store, call)[n])
  {
  }

  lemma UniformPublish(defs: Key -> Definition, store: Contents, local: Locals, k: Key, remote: Option<RemoteService>,
                       faults: Faults)
    requires GlobalName(k) in store && EntryConforms(defs, store[GlobalName(k)]) && store[GlobalName(k)].key == k
    requires store[GlobalName(k)].labels == GLOBAL_LABELS
    requires remote.Some? ==> remote.value.ports == defs(k).ports
    requires GlobalName(k) in local ==> LocalConforms(defs, k, local[GlobalName(k)])
    ensures var effect := Publish(store, local, GlobalName(k), remote, faults);
            GlobalName(k) in effect.local ==> LocalConforms(defs, k, effect.local[GlobalName(k)])
  {
  }

  /** What a reconcile can do to the local objects. */
  lemma LocalResult(selector: map<string, string>, store: Contents, local: Locals, cluster: string, k: Key,
                    remote: Option<RemoteService>, faults: Faults)
    requires remote.Some? ==> remote.value.key == k
    ensures var after := ReconcileGlobal(selector, store, local, cluster, k, remote, faults).local;
            var called := Apply(store, CallOf(selector, cluster, k, remote));
            || after == local || after == local - {GlobalName(k)}
            || (GlobalName(k) in called && after == Publish(called, local, GlobalName(k), remote, faults).local)
  {
  }

  lemma OwnLocalConforms(cfg: Config, defs: Key -> Definition, sys: System, at: At)
    requires CollisionFree(cfg.keys) && CacheWellFormed(cfg, sys) && UniformInv(cfg, defs, sys)
    requires at in sys.seen && GlobalName(at.key) in sys.local
    ensures LocalConforms(defs, at.key, sys.local[GlobalName(at.key)])
  {
    var n := GlobalName(at.key);
    NameShapes(GLOBAL_PREFIX, at.key);
    MirrorNameInSpace(GLOBAL_PREFIX, at.key);
    assert LocalIsOurs(defs, sys, n);
    var o :| o in sys.seen && n == GlobalName(o.key) && LocalConforms(defs, o.key, sys.local[n]);
    CollisionFreeNames(cfg.keys, "", at.key, o.key);
  }

  lemma UniformEntry(cfg: Config, defs: Key -> Definition, sys: System, at: At)
    requires CollisionFree(cfg.keys) && Inv(cfg, sys) && UniformInv(cfg, defs, sys) && at in sys.seen
    ensures var n := GlobalName(at.key);
            var store := Apply(sys.store, CallOf(cfg.selector, at.cluster, at.key, Cached(sys, at)));
            n in store ==> EntryConforms(defs, store[n]) && store[n].key == at.key && store[n].labels == GLOBAL_LABELS
  {
    var remote, n := Cached(sys, at), GlobalName(at.key);
    if n in sys.store {
      EntryKeyIsItsOwn(cfg, sys, at);
    }
    UniformCall(cfg, defs, sys.store, at.cluster, at.key, remote);
    ApplyWellFormed(sys.store, CallOf(cfg.selector, at.cluster, at.key, remote));
  }

  lemma UniformLocal(cfg: Config, defs: Key -> Definition, sys: System, at: At, faults: Faults)
    requires CollisionFree(cfg.keys) && Inv(cfg, sys) && UniformInv(cfg, defs, sys)
             && Enabled(cfg, sys, Reconcile(at, faults))
    ensures var after := Next(cfg, sys, Reconcile(at, faults));
            GlobalName(at.key) in after.local ==> LocalConforms(defs, at.key, after.local[GlobalName(at.key)])
  {
    var remote, n := Cached(sys, at), GlobalName(at.key);
    if n in sys.local {
      OwnLocalConforms(cfg, defs, sys, at);
    }
    UniformEntry(cfg, defs, sys, at);
    var store := Apply(sys.store, CallOf(cfg.selector, at.cluster, at.key, remote));
    if n in store {
      UniformPublish(defs, store, sys.local, at.key, remote, faults);
    }
    LocalResult(cfg.selector, sys.store, sys.local, at.cluster, at.key, remote, faults);
  }

  lemma UniformReconcile(cfg: Config, defs: Key -> Definition, sys: System, at: At, faults: Faults)
    requires CollisionFree(cfg.keys) && Inv(cfg, sys) && UniformInv(cfg, defs, sys)
             && Enabled(cfg, sys, Reconcile(at, faults))
    ensures UniformInv(cfg, defs, Next(cfg, sys, Reconcile(at, faults)))
  {
    var after := Next(cfg, sys, Reconcile(at, faults));
    var remote, n := Cached(sys, at), GlobalName(at.key);
    var call := CallOf(cfg.selector, at.cluster, at.key, remote);
    StoreEffect(cfg.selector, sys.store, sys.local, at.cluster, at.key, remote, faults);
    if n in sys.store {
      EntryKeyIsItsOwn(cfg, sys, at);
    }
    UniformCall(cfg, defs, sys.store, at.cluster, at.key, remote);
    forall x | x in after.local && InSpace(GLOBAL_PREFIX, x) ensures LocalIsOurs(defs, after, x) {
      if x == n {
        UniformLocal(cfg, defs, sys, at, faults);
      } else {
        assert LocalIsOurs(defs, sys, x);
        var o :| o in sys.seen && x == GlobalName(o.key) && LocalConforms(defs, o.key, sys.local[x]);
        assert o in after.seen;
      }
    }
  }

  lemma UniformStep(cfg: Config, defs: Key -> Definition, sys: System, a: Action)
    requires CollisionFree(cfg.keys) && Inv(cfg, sys) && UniformInv(cfg, defs, sys) && Enabled(cfg, sys, a)
    requires a.Change? && a.svc.Some? ==> Conforms(cfg, defs, a.svc.value)
    ensures UniformInv(cfg, defs, Next(cfg, sys, a))
  {
    if a.Reconcile? {
      UniformReconcile(cfg, defs, sys, a.at, a.faults);
    } else {
      var after := Next(cfg, sys, a);
      forall x | x in after.local && InSpace(GLOBAL_PREFIX, x) ensures LocalIsOurs(defs, after, x) {
        assert LocalIsOurs(defs, sys, x);
        var o :| o in sys.seen && x == GlobalName(o.key) && LocalConforms(defs, o.key, sys.local[x]);
        assert o in after.seen;
      }
    }
  }

  lemma {:induction false} UniformRun(cfg: Config, defs: Key -> Definition, sys: System, run: seq<Action>)
    requires CollisionFree(cfg.keys) && Inv(cfg, sys) && UniformInv(cfg, defs, sys)
    requires ValidRun(cfg, sys, run) && Uniform(cfg, defs, run)
    ensures Inv(cfg, Final(cfg, sys, run)) && UniformInv(cfg, defs, Final(cfg, sys, run))
    decreases |run|
  {
    if run != [] {
      assert run[0] in run && forall a :: a in run[1..] ==> a in run;
      InvStep(cfg, sys, run[0]);
      UniformStep(cfg, defs, sys, run[0]);
      UniformRun(cfg, defs, Next(cfg, sys, run[0]), run[1..]);
    }
  }

  /** Equal but for the order of the clusters list and the annotation that spells it out. */
  ghost predicate SameEntry(e1: Entry, e2: Entry) {
    && e1.key == e2.key && e1.ports == e2.ports && e1.headless == e2.headless && e1.labels == e2.labels
    && multiset(e1.clusters) == multiset(e2.clusters)
    && e1.annotations - {CLUSTERS_ANNOTATION} == e2.annotations - {CLUSTERS_ANNOTATION}
  }

  ghost predicate SameLocal(l1: LocalService, l2: LocalService) {
    && l1.(annotations := map[]) == l2.(annotations := map[])
    && l1.annotations - {CLUSTERS_ANNOTATION} == l2.annotations - {CLUSTERS_ANNOTATION}
  }

  ghost predicate NoGlobalServices(local: Locals) {
    forall n :: n in local ==> !InSpace(GLOBAL_PREFIX, n)
  }

  ghost predicate Settled(cfg: Config, defs: Key -> Definition, sys: System) {
    Inv(cfg, sys) && UniformInv(cfg, defs, sys) && sys.pending == {}
  }

  lemma HintsRemain(annotations: map<string, string>, clusters: seq<string>)
    ensures WithClusters(annotations, clusters) - {CLUSTERS_ANNOTATION} == annotations - {CLUSTERS_ANNOTATION}
  {
  }

  function ClustersWith(cache: map<At, RemoteService>, k: Key): set<string> {
    set at | at in cache && at.key == k :: at.cluster
  }

  lemma ClustersAtRest(cfg: Config, sys: System, at: At)
    requires CollisionFree(cfg.keys) && Inv(cfg, sys) && sys.pending == {} && at in sys.seen
    ensures GlobalName(at.key) in sys.store <==> ClustersWith(sys.cache, at.key) != {}
    ensures GlobalName(at.key) in sys.store ==>
              var e := sys.store[GlobalName(at.key)];
              e.key == at.key && multiset(e.clusters) == multiset(ClustersWith(sys.cache, at.key))
  {
    AtRest(cfg, sys, at);
    if c :| At(c, at.key) in sys.cache {
      assert At(c, at.key).cluster in ClustersWith(sys.cache, at.key);
    }
    if GlobalName(at.key) in sys.store {
      var e := sys.store[GlobalName(at.key)];
      assert forall c :: c in ClustersWith(sys.cache, at.key) ==> At(c, at.key) in sys.cache;
      assert forall c :: At(c, at.key) in sys.cache ==> At(c, at.key).cluster in ClustersWith(sys.cache, at.key);
      assert Elements(e.clusters) == ClustersWith(sys.cache, at.key);
      NoDupsMultiset(e.clusters);
    }
  }

  lemma SameClusters(cfg: Config, s1: System, s2: System, at: At)
    requires CollisionFree(cfg.keys) && Inv(cfg, s1) && Inv(cfg, s2) && s1.pending == s2.pending == {}
             && s1.cache == s2.cache
    requires at in s1.seen && GlobalName(at.key) in s1.store
    ensures GlobalName(at.key) in s2.store
    ensures var e1, e2 := s1.store[GlobalName(at.key)], s2.store[GlobalName(at.key)];
            e1.key == e2.key == at.key && e1.labels == e2.labels && multiset(e1.clusters) == multiset(e2.clusters)
  {
    ClustersAtRest(cfg, s1, at);
    var c :| c in ClustersWith(s1.cache, at.key);
    ClustersAtRest(cfg, s2, At(c, at.key));
  }

  lemma EntriesConfluent(cfg: Config, defs: Key -> Definition, s1: System, s2: System, n: string)
    requires CollisionFree(cfg.keys) && Settled(cfg, defs, s1) && Settled(cfg, defs, s2) && s1.cache == s2.cache
    requires n in s1.store
    ensures n in s2.store && SameEntry(s1.store[n], s2.store[n])
  {
    var at := At(s1.store[n].clusters[0], s1.store[n].key);
    assert at in s1.seen;
    SameClusters(cfg, s1, s2, at);
    HintsRemain(HintAnnotations(defs(at.key).hints), s1.store[n].clusters);
    HintsRemain(HintAnnotations(defs(at.key).hints), s2.store[n].clusters);
  }

  lemma LocalsConfluent(cfg: Config, defs: Key -> Definition, s1: System, s2: System, n: string)
    requires CollisionFree(cfg.keys) && Settled(cfg, defs, s1) && Settled(cfg, defs, s2) && s1.cache == s2.cache
    requires n in s1.local && InSpace(GLOBAL_PREFIX, n)
    ensures n in s2.local && SameLocal(s1.local[n], s2.local[n])
  {
    assert LocalIsOurs(defs, s1, n);
    var at :| at in s1.seen && n == GlobalName(at.key) && LocalConforms(defs, at.key, s1.local[n]);
    AtRest(cfg, s1, at);
    var c :| At(c, at.key) in s1.cache;
    AtRest(cfg, s2, At(c, at.key));
    assert CachedSomewhere(s2, at.key);
    OwnLocalConforms(cfg, defs, s2, At(c, at.key));
    EntriesConfluent(cfg, defs, s1, s2, n);
  }

  lemma RestsAgree(cfg: Config, defs: Key -> Definition, e1: System, e2: System)
    requires CollisionFree(cfg.keys) && Settled(cfg, defs, e1) && Settled(cfg, defs, e2) && e1.cache == e2.cache
    ensures e1.store.Keys == e2.store.Keys
    ensures forall n :: n in e1.store ==> SameEntry(e1.store[n], e2.store[n])
    ensures forall n :: InSpace(GLOBAL_PREFIX, n) ==> (n in e1.local <==> n in e2.local)
    ensures forall n :: InSpace(GLOBAL_PREFIX, n) && n in e1.local ==> SameLocal(e1.local[n], e2.local[n])
  {
    forall n | n in e1.store ensures n in e2.store && SameEntry(e1.store[n], e2.store[n]) {
      EntriesConfluent(cfg, defs, e1, e2, n);
    }
    forall n | n in e2.store ensures n in e1.store {
      EntriesConfluent(cfg, defs, e2, e1, n);
    }
    forall n | n in e1.local && InSpace(GLOBAL_PREFIX, n) ensures n in e2.local && SameLocal(e1.local[n], e2.local[n]) {
      LocalsConfluent(cfg, defs, e1, e2, n);
    }
    forall n | n in e2.local && InSpace(GLOBAL_PREFIX, n) ensures n in e1.local {
      LocalsConfluent(cfg, defs, e2, e1, n);
    }
  }

  /** Any two runs, with any faults and scheduling, that end at rest with equal caches end with equal
      stores and equal local global services, up to the order of each clusters list. */
  lemma Confluence(cfg: Config, defs: Key -> Definition, sys1: System, run1: seq<Action>, sys2: System,
                   run2: seq<Action>)
    requires CollisionFree(cfg.keys)
    requires Initial(sys1) && NoGlobalServices(sys1.local) && ValidRun(cfg, sys1, run1) && Uniform(cfg, defs, run1)
    requires Initial(sys2) && NoGlobalServices(sys2.local) && ValidRun(cfg, sys2, run2) && Uniform(cfg, defs, run2)
    requires Final(cfg, sys1, run1).pending == Final(cfg, sys2, run2).pending == {}
    requires Final(cfg, sys1, run1).cache == Final(cfg, sys2, run2).cache
    ensures var e1, e2 := Final(cfg, sys1, run1), Final(cfg, sys2, run2);
            && e1.store.Keys == e2.store.Keys
            && (forall n :: n in e1.store ==> SameEntry(e1.store[n], e2.store[n]))
            && (forall n :: InSpace(GLOBAL_PREFIX, n) ==> (n in e1.local <==> n in e2.local))
            && (forall n :: InSpace(GLOBAL_PREFIX, n) && n in e1.local ==> SameLocal(e1.local[n], e2.local[n]))
  {
    UniformRun(cfg, defs, sys1, run1);
    UniformRun(cfg, defs, sys2, run2);
    RestsAgree(cfg, defs, Final(cfg, sys1, run1), Final(cfg, sys2, run2));
  }
}
