/** The global runners with their real work queues, and why the set of pending keys of
    aggregation.dfy is enough: every run with queues is matched by a run with that set. */
module QueuedRunners {
  import opened Wrappers
  import opened Naming
  import opened GlobalStore
  import opened WorkQueue
  import opened Controller
  import opened Kube
  import A = Aggregation

  /** One runner's events that were not handled yet, and its work queue. */
  datatype Intake = Intake(inflight: seq<Key>, queue: WorkQueue<Key>)

  datatype Queued = Queued(
    store: Contents,
    cache: map<A.At, RemoteService>,
    seen: set<A.At>,
    intakes: map<string, Intake>,
    local: A.Locals)

  datatype Step =
    | CacheChange(at: A.At, svc: Option<RemoteService>)
    | Deliver(cluster: string)
    | Fire(cluster: string, key: Key)
    | Turn(cluster: string, faults: Faults)
    | Outside(name: string, obj: Option<LocalService>)

  /** The system whose reconciles these are; its pending set is beside the point here. */
  function Shadow(q: Queued, pending: set<A.At>): A.System {
    A.System(q.store, q.cache, q.seen, pending, q.local)
  }

  function TurnEffect(cfg: A.Config, q: Queued, cluster: string, faults: Faults): A.Effect
    requires cluster in q.intakes && q.intakes[cluster].queue.fifo != []
  {
    A.EffectOf(cfg, Shadow(q, {}), A.At(cluster, q.intakes[cluster].queue.fifo[0]), faults)
  }

  /** Get, then requeue or forget, then Done. */
  function TurnQueue(queue: WorkQueue<Key>, reconciled: bool): WorkQueue<Key>
    requires queue.fifo != []
  {
    queue.Turn([], reconciled)
  }

  ghost predicate Enabled(cfg: A.Config, q: Queued, step: Step) {
    match step
    case CacheChange(at, svc) =>
      && at.cluster in q.intakes && at.key in cfg.keys
      && (if svc.Some? then svc.value.key == at.key else at in q.cache)
    case Deliver(c) => c in q.intakes && q.intakes[c].inflight != []
    case Fire(c, k) => c in q.intakes && k in q.intakes[c].queue.delayed
    case Turn(c, faults) =>
      && c in q.intakes && q.intakes[c].queue.fifo != []
      && !TurnEffect(cfg, q, c, faults).verdict.Crashed?
    case Outside(n, _) => !InSpace(GLOBAL_PREFIX, n)
  }

  ghost function Next(cfg: A.Config, q: Queued, step: Step): Queued
    requires Enabled(cfg, q, step)
  {
    match step
    case CacheChange(at, svc) =>
      var intake := q.intakes[at.cluster];
      q.(cache := if svc.Some? then q.cache[at := svc.value] else q.cache - {at},
         seen := q.seen + {at},
         intakes := q.intakes[at.cluster := intake.(inflight := intake.inflight + [at.key])])
    case Deliver(c) =>
      var Intake(inflight, queue) := q.intakes[c];
      q.(intakes := q.intakes[c := Intake(inflight[1..], queue.Add(inflight[0]))])
    case Fire(c, k) =>
      var intake := q.intakes[c];
      q.(intakes := q.intakes[c := intake.(queue := intake.queue.Fire(k))])
    case Turn(c, faults) =>
      var effect := TurnEffect(cfg, q, c, faults);
      var intake := q.intakes[c];
      q.(store := effect.store, local := effect.local,
         intakes := q.intakes[c := intake.(queue := TurnQueue(intake.queue, effect.verdict.Reconciled?))])
    case Outside(n, obj) =>
      q.(local := if obj.Some? then q.local[n := obj.value] else q.local - {n})
  }

  ghost predicate Initial(cfg: A.Config, q: Queued) {
    && q.intakes.Keys == cfg.clusters
    && q.store == map[] && q.cache == map[] && q.seen == {}
    && forall c :: c in q.intakes ==> q.intakes[c] == Intake([], WorkQueue({}, [], {}, {}))
  }

  ghost predicate ValidRun(cfg: A.Config, q: Queued, run: seq<Step>)
    decreases |run|
  {
    run != [] ==> Enabled(cfg, q, run[0]) && ValidRun(cfg, Next(cfg, q, run[0]), run[1..])
  }

  ghost function Final(cfg: A.Config, q: Queued, run: seq<Step>): Queued
    requires ValidRun(cfg, q, run)
    decreases |run|
  {
    if run == [] then q else Final(cfg, Next(cfg, q, run[0]), run[1..])
  }

  predicate Waits(q: Queued, at: A.At) {
    at.cluster in q.intakes && (at.key in q.intakes[at.cluster].inflight || q.intakes[at.cluster].queue.Holds(at.key))
  }

  ghost predicate QueuesInv(cfg: A.Config, q: Queued) {
    && q.intakes.Keys == cfg.clusters
    && (forall c :: c in q.intakes ==> q.intakes[c].queue.Valid() && q.intakes[c].queue.processing == {})
    && (forall at :: Waits(q, at) ==> at in q.seen)
  }

  /** Whatever the matching run has pending waits in some queue. */
  ghost predicate Matches(q: Queued, sys: A.System) {
    && sys == Shadow(q, sys.pending)
    && forall at :: at in sys.pending ==> Waits(q, at)
  }

  /** Among the other keys a turn changes nothing; its own key stays unless the reconcile succeeded and
      nothing marked it again. */
  lemma TurnKeepsKeys(queue: WorkQueue<Key>, reconciled: bool)
    requires queue.Valid() && queue.processing == {} && queue.fifo != []
    ensures var after := TurnQueue(queue, reconciled);
            && after.Valid() && after.processing == {}
            && (forall k :: after.Holds(k) ==> queue.Holds(k))
            && (forall k :: queue.Holds(k) && (k != queue.fifo[0] || !reconciled) ==> after.Holds(k))
  {
    var key, got := queue.fifo[0], queue.Get();
    OperationsKeepKeys(queue, key);
    OperationsKeepKeys(got, key);
    OperationsKeepKeys(got.AddRateLimited(key), key);
  }

  lemma QueuesInvTurn(cfg: A.Config, q: Queued, c: string, faults: Faults)
    requires QueuesInv(cfg, q) && Enabled(cfg, q, Turn(c, faults))
    ensures QueuesInv(cfg, Next(cfg, q, Turn(c, faults)))
  {
    TurnKeepsKeys(q.intakes[c].queue, TurnEffect(cfg, q, c, faults).verdict.Reconciled?);
    assert forall at :: Waits(Next(cfg, q, Turn(c, faults)), at) ==> Waits(q, at);
  }

  lemma QueuesInvDeliver(cfg: A.Config, q: Queued, c: string)
    requires QueuesInv(cfg, q) && Enabled(cfg, q, Step.Deliver(c))
    ensures QueuesInv(cfg, Next(cfg, q, Step.Deliver(c)))
  {
    var Intake(inflight, queue) := q.intakes[c];
    OperationsKeepKeys(queue, inflight[0]);
  }

  lemma QueuesInvFire(cfg: A.Config, q: Queued, c: string, k: Key)
    requires QueuesInv(cfg, q) && Enabled(cfg, q, Step.Fire(c, k))
    ensures QueuesInv(cfg, Next(cfg, q, Step.Fire(c, k)))
  {
    OperationsKeepKeys(q.intakes[c].queue, k);
  }

  lemma QueuesInvStep(cfg: A.Config, q: Queued, step: Step)
    requires QueuesInv(cfg, q) && Enabled(cfg, q, step)
    ensures QueuesInv(cfg, Next(cfg, q, step))
  {
    match step
    case Deliver(c) => QueuesInvDeliver(cfg, q, c);
    case Fire(c, k) => QueuesInvFire(cfg, q, c, k);
    case Turn(c, faults) => QueuesInvTurn(cfg, q, c, faults);
    case _ =>
  }

  /** The step of the matching run, if the step with queues has one. */
  function Matching(q: Queued, step: Step): seq<A.Action> {
    match step
    case CacheChange(at, svc) => [A.Change(at, svc)]
    case Turn(c, faults) =>
      if c in q.intakes && q.intakes[c].queue.fifo != []
          then [A.Reconcile(A.At(c, q.intakes[c].queue.fifo[0]), faults)] else []
    case Outside(n, obj) => [A.Outside(n, obj)]
    case _ => []
  }

  lemma TurnMatches(cfg: A.Config, q: Queued, sys: A.System, c: string, faults: Faults)
    requires QueuesInv(cfg, q) && Matches(q, sys) && Enabled(cfg, q, Turn(c, faults))
    ensures var a := A.Reconcile(A.At(c, q.intakes[c].queue.fifo[0]), faults);
            A.Enabled(cfg, sys, a) && Matches(Next(cfg, q, Turn(c, faults)), A.Next(cfg, sys, a))
  {
    var queue := q.intakes[c].queue;
    var at := A.At(c, queue.fifo[0]);
    assert queue.fifo[0] in queue.fifo && Waits(q, at);
    assert A.EffectOf(cfg, sys, at, faults) == TurnEffect(cfg, q, c, faults);
    TurnKeepsKeys(queue, TurnEffect(cfg, q, c, faults).verdict.Reconciled?);
    var after, sys' := Next(cfg, q, Turn(c, faults)), A.Next(cfg, sys, A.Reconcile(at, faults));
    forall o | o in sys'.pending ensures Waits(after, o) {
      assert o == at || o in sys.pending;
    }
  }

  lemma StepMatches(cfg: A.Config, q: Queued, sys: A.System, step: Step)
    requires QueuesInv(cfg, q) && Matches(q, sys) && Enabled(cfg, q, step)
    ensures A.ValidRun(cfg, sys, Matching(q, step))
    ensures Matches(Next(cfg, q, step), A.Final(cfg, sys, Matching(q, step)))
  {
    match step
    case CacheChange(at, svc) => A.Prepend(cfg, sys, A.Change(at, svc), []);
    case Outside(n, obj) => A.Prepend(cfg, sys, A.Outside(n, obj), []);
    case Turn(c, faults) =>
      TurnMatches(cfg, q, sys, c, faults);
      A.Prepend(cfg, sys, Matching(q, step)[0], []);
    case Deliver(c) => OperationsKeepKeys(q.intakes[c].queue, q.intakes[c].inflight[0]);
    case Fire(c, k) => OperationsKeepKeys(q.intakes[c].queue, k);
  }

  lemma {:induction false} RunMatches(cfg: A.Config, q: Queued, sys: A.System, run: seq<Step>)
      returns (actions: seq<A.Action>)
    requires QueuesInv(cfg, q) && Matches(q, sys) && ValidRun(cfg, q, run)
    ensures A.ValidRun(cfg, sys, actions)
    ensures QueuesInv(cfg, Final(cfg, q, run)) && Matches(Final(cfg, q, run), A.Final(cfg, sys, actions))
    decreases |run|
  {
    if run == [] {
      return [];
    }
    StepMatches(cfg, q, sys, run[0]);
    QueuesInvStep(cfg, q, run[0]);
    var first := Matching(q, run[0]);
    actions := RunMatches(cfg, Next(cfg, q, run[0]), A.Final(cfg, sys, first), run[1..]);
    if first != [] {
      assert first == [first[0]] + [];
      A.Prepend(cfg, sys, first[0], []);
      A.Prepend(cfg, sys, first[0], actions);
      actions := [first[0]] + actions;
    }
  }

  predicate AllQueuesEmpty(q: Queued) {
    forall c :: c in q.intakes ==> q.intakes[c].inflight == [] && q.intakes[c].queue == WorkQueue({}, [], {}, {})
  }

  /** Every run with queues is matched by a run of the aggregation system that ends with the same store,
      caches and local services, and with nothing pending that does not wait in a queue. */
  lemma QueuesRefinePending(cfg: A.Config, q: Queued, run: seq<Step>) returns (sys: A.System, actions: seq<A.Action>)
    requires Initial(cfg, q) && ValidRun(cfg, q, run)
    ensures A.Initial(sys) && sys.local == q.local && A.ValidRun(cfg, sys, actions)
    ensures Matches(Final(cfg, q, run), A.Final(cfg, sys, actions))
    ensures AllQueuesEmpty(Final(cfg, q, run)) ==> A.Final(cfg, sys, actions).pending == {}
  {
    sys := Shadow(q, {});
    actions := RunMatches(cfg, q, sys, run);
    var end, last := Final(cfg, q, run), A.Final(cfg, sys, actions);
    if AllQueuesEmpty(end) {
      assert forall at :: at in last.pending ==> Waits(end, at);
      assert forall at :: !Waits(end, at);
    }
  }

  ghost predicate WaitsSomewhere(q: Queued, k: Key) {
    exists c :: Waits(q, A.At(c, k))
  }

  /** The invariant of all runners with their queues: each seen key waits in its runner's queue or is
      listed exactly when cached; unless it waits in some queue its local service exists exactly when
      the entry does and carries it. */
  lemma QueuedGlobalInvariant(cfg: A.Config, q: Queued, run: seq<Step>, at: A.At)
    requires CollisionFree(cfg.keys) && Initial(cfg, q) && ValidRun(cfg, q, run) && at in Final(cfg, q, run).seen
    ensures var end := Final(cfg, q, run);
            && (Waits(end, at) || (IsMember(end.store, at.key, at.cluster) <==> at in end.cache))
            && (WaitsSomewhere(end, at.key) || A.LocalAgrees(end.store, end.local, at.key))
            && WellFormed(end.store)
  {
    var sys, actions := QueuesRefinePending(cfg, q, run);
    A.GlobalInvariant(cfg, sys, actions, at);
    var end, last := Final(cfg, q, run), A.Final(cfg, sys, actions);
    if A.PendingSomewhere(last, at.key) {
      var c :| A.At(c, at.key) in last.pending;
      assert Waits(end, A.At(c, at.key));
    }
  }

  /** Once every queue is empty, a global service exists exactly when some cluster has the service, and
      its entry lists exactly those clusters. */
  lemma EmptyQueuesExact(cfg: A.Config, q: Queued, run: seq<Step>, at: A.At)
    requires CollisionFree(cfg.keys) && Initial(cfg, q) && ValidRun(cfg, q, run)
    requires at in Final(cfg, q, run).seen && AllQueuesEmpty(Final(cfg, q, run))
    ensures var end, n := Final(cfg, q, run), GlobalName(at.key);
            && (n in end.local <==> A.ClustersWith(end.cache, at.key) != {})
            && (n in end.local ==>
                  && n in end.store && A.LocalAgrees(end.store, end.local, at.key)
                  && multiset(end.store[n].clusters) == multiset(A.ClustersWith(end.cache, at.key)))
  {
    var sys, actions := QueuesRefinePending(cfg, q, run);
    var last := A.Final(cfg, sys, actions);
    A.InvRun(cfg, sys, actions);
    A.AtRest(cfg, last, at);
    A.ClustersAtRest(cfg, last, at);
  }
}
