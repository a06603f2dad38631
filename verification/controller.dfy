/** The reconciliation loop that every watched kind goes through, as a step system: a watch cache,
    its event handler, a work queue with one worker, a reconcile function made of separate API
    calls, and the start-up sync (mirror_runner.go, global_runner.go, queue.go). */
module Controller {
  import opened Wrappers
  import opened Naming
  import opened Lists
  import opened WorkQueue

  // --- What distinguishes one watched kind from another -----------------------------------------

  /** V is a watched object, L the object it is mirrored to. */
  datatype Kind<!V(!new), !L(!new)> = Kind(
    admits: Key -> bool,            // the keys this runner may ever see
    name: Key -> string,            // the name of the mirror
    owns: string -> bool,           // the local names that are this runner's
    valid: V -> bool,               // whether the reconcile function accepts the object
    create: (Key, V) -> L,
    update: (Key, L, V) -> L,
    agrees: (Key, L, V) -> bool,    // the mirror carries what the object asks for
    labelled: L -> bool)            // the selector of the runner's own mirror watcher

  ghost predicate NamesLawful<V(!new), L(!new)>(kind: Kind<V, L>) {
    && (forall k :: kind.admits(k) ==> kind.owns(kind.name(k)))
    && (forall k1, k2 :: kind.admits(k1) && kind.admits(k2) && kind.name(k1) == kind.name(k2) ==> k1 == k2)
  }

  ghost predicate WritesLawful<V(!new), L(!new)>(kind: Kind<V, L>) {
    && (forall k, v :: kind.valid(v) ==> kind.agrees(k, kind.create(k, v), v) && kind.labelled(kind.create(k, v)))
    && (forall k, l, v :: kind.valid(v) ==> kind.agrees(k, kind.update(k, l, v), v))
    && (forall k, l, v :: kind.valid(v) && kind.labelled(l) ==> kind.labelled(kind.update(k, l, v)))
  }

  ghost predicate Lawful<V(!new), L(!new)>(kind: Kind<V, L>) {
    NamesLawful(kind) && WritesLawful(kind)
  }

  // --- The state of a runner --------------------------------------------------------------------

  /** What an API call comes to: done, turned down, or done with its reply lost. */
  datatype Fault = Fine | Refused | LostReply

  datatype Stage<V, L> =
    | Idle
    | Started(key: Key)
    | Deleting(key: Key)
    | Looking(key: Key, remote: V)
    | Creating(key: Key, remote: V)
    | Updating(key: Key, remote: V, local: L)
    | Ended(key: Key, ok: bool)
    | Closing(key: Key)

  datatype Phase =
    | Booting
    | Listed(keep: set<string>)
    | Syncing(keep: set<string>, todo: seq<string>, exact: bool)
    | Running

  datatype Runner<V, L> = Runner(
    remote: map<Key, V>,            // the watch cache
    seen: set<Key>,                 // every key that ever had an event
    inflight: seq<Key>,             // cache changes whose event was not handled yet
    queue: WorkQueue<Key>,
    requeued: seq<Key>,
    outcomes: seq<Outcome<Key>>,    // the results of all reconciles so far
    stage: Stage<V, L>,
    phase: Phase,
    tidy: bool)                     // no stale mirror is left over from before the start

  datatype State<V, L> = State(r: Runner<V, L>, local: map<string, L>)

  datatype Action<V, L> =
    // the surroundings
    | CacheSet(key: Key, value: V)
    | CacheDelete(key: Key)
    | External(name: string, obj: Option<L>)
    // the start-up sync
    | ListRemote
    | ListLocal(todo: seq<string>)
    | ListElsewhere(todo: seq<string>)
    | SyncDelete(fault: Fault)
    | StartQueue
    // events and the queue
    | Deliver
    | Fire(key: Key)
    | Get
    // one reconcile
    | ReadCache(failed: bool)
    | Look(failed: bool)
    | Write(fault: Fault)
    | Settle
    | Done

  ghost predicate Enabled<V(!new), L(!new)>(kind: Kind<V, L>, s: State<V, L>, a: Action<V, L>) {
    match a
    case CacheSet(k, _) => kind.admits(k)
    case CacheDelete(k) => k in s.r.remote
    case External(n, obj) => !kind.owns(n) && (obj.Some? ==> !kind.labelled(obj.value))
    case ListRemote => s.r.phase.Booting?
    case ListLocal(todo) =>
      s.r.phase.Listed? && NoDups(todo) && forall n :: n in todo <==> n in s.local && kind.labelled(s.local[n])
    // The slice sync of a remote cluster's runner lists that cluster's mirrors of its own slices.
    case ListElsewhere(todo) => s.r.phase.Listed? && forall n :: n in todo ==> kind.owns(n)
    case SyncDelete(_) => s.r.phase.Syncing? && s.r.phase.todo != []
    case StartQueue => !s.r.phase.Running? && (s.r.phase.Syncing? ==> s.r.phase.todo == [])
    case Deliver => s.r.inflight != []
    case Fire(k) => k in s.r.queue.delayed
    case Get => s.r.phase.Running? && s.r.stage.Idle? && s.r.queue.fifo != []
    case ReadCache(_) => s.r.stage.Started?
    case Look(_) => s.r.stage.Looking?
    case Write(_) => s.r.stage.Deleting? || s.r.stage.Creating? || s.r.stage.Updating?
    case Settle => s.r.stage.Ended?
    case Done => s.r.stage.Closing?
  }

  /** Delete succeeds on a missing object because NotFound is ignored; create fails on an existing
      one, update on a missing or changed one. */
  ghost function ApiWrite<V(!new), L(!new)>(kind: Kind<V, L>, local: map<string, L>, stage: Stage<V, L>,
                                            fault: Fault): (map<string, L>, bool)
    requires stage.Deleting? || stage.Creating? || stage.Updating?
  {
    var n := kind.name(stage.key);
    if fault.Refused? then (local, false)
    else
      match stage
      case Deleting(_) => (local - {n}, fault.Fine?)
      case Creating(k, v) =>
        if n in local then (local, false) else (local[n := kind.create(k, v)], fault.Fine?)
      case Updating(k, v, l) =>
        if n in local && local[n] == l then (local[n := kind.update(k, l, v)], fault.Fine?) else (local, false)
  }

  ghost function AfterRead<V(!new), L(!new)>(kind: Kind<V, L>, remote: map<Key, V>, k: Key, failed: bool): Stage<V, L> {
    if failed then Ended(k, false)
    else if k !in remote then Deleting(k)
    else if !kind.valid(remote[k]) then Ended(k, false)
    else Looking(k, remote[k])
  }

  ghost function AfterLook<V(!new), L(!new)>(kind: Kind<V, L>, local: map<string, L>, k: Key, v: V,
                                             failed: bool): Stage<V, L> {
    if failed then Ended(k, false)
    else if kind.name(k) in local then Updating(k, v, local[kind.name(k)])
    else Creating(k, v)
  }

  ghost function Names<V(!new), L(!new)>(kind: Kind<V, L>, keys: set<Key>): set<string> {
    set k | k in keys :: kind.name(k)
  }

  /** A sync that meets an error, NotFound included, is given up and the queues start. */
  ghost function AfterSyncDelete<V, L>(s: State<V, L>, fault: Fault): State<V, L>
    requires s.r.phase.Syncing? && s.r.phase.todo != []
  {
    var Syncing(keep, todo, exact) := s.r.phase;
    var n := todo[0];
    if n in keep then s.(r := s.r.(phase := Syncing(keep, todo[1..], exact)))
    else if fault.Refused? || n !in s.local then s.(r := s.r.(phase := Running))
    else State(s.r.(phase := if fault.Fine? then Syncing(keep, todo[1..], exact) else Running), s.local - {n})
  }

  ghost function Next<V(!new), L(!new)>(kind: Kind<V, L>, s: State<V, L>, a: Action<V, L>): State<V, L>
    requires Enabled(kind, s, a)
  {
    var r := s.r;
    match a
    case CacheSet(k, v) =>
      s.(r := r.(remote := r.remote[k := v], seen := r.seen + {k}, inflight := r.inflight + [k]))
    case CacheDelete(k) =>
      s.(r := r.(remote := r.remote - {k}, inflight := r.inflight + [k]))
    case External(n, obj) =>
      s.(local := if obj.Some? then s.local[n := obj.value] else s.local - {n})
    case ListRemote => s.(r := r.(phase := Listed(Names(kind, r.remote.Keys))))
    case ListLocal(todo) => s.(r := r.(phase := Syncing(r.phase.keep, todo, true)))
    case ListElsewhere(todo) => s.(r := r.(phase := Syncing(r.phase.keep, todo, false)))
    case SyncDelete(fault) => AfterSyncDelete(s, fault)
    case StartQueue => s.(r := r.(phase := Running, tidy := r.tidy || (r.phase.Syncing? && r.phase.exact)))
    case Deliver => s.(r := r.(inflight := r.inflight[1..], queue := r.queue.Add(r.inflight[0])))
    case Fire(k) => s.(r := r.(queue := r.queue.Fire(k)))
    case Get => s.(r := r.(queue := r.queue.Get(), stage := Started(r.queue.fifo[0])))
    case ReadCache(failed) => s.(r := r.(stage := AfterRead(kind, r.remote, r.stage.key, failed)))
    case Look(failed) => s.(r := r.(stage := AfterLook(kind, s.local, r.stage.key, r.stage.remote, failed)))
    case Write(fault) =>
      var (local, ok) := ApiWrite(kind, s.local, r.stage, fault);
      State(r.(stage := Ended(r.stage.key, ok)), local)
    case Settle =>
      var Ended(k, ok) := r.stage;
      s.(r := r.(requeued := Record(r.requeued, Outcome(k, ok)), outcomes := r.outcomes + [Outcome(k, ok)],
                 queue := if ok then r.queue else r.queue.AddRateLimited(k), stage := Closing(k)))
    case Done => s.(r := r.(queue := r.queue.Done(r.stage.key), stage := Idle))
  }

  ghost predicate LabelsMatchNames<V(!new), L(!new)>(kind: Kind<V, L>, local: map<string, L>) {
    forall n :: n in local ==> (kind.owns(n) <==> kind.labelled(local[n]))
  }

  ghost predicate Initial<V(!new), L(!new)>(kind: Kind<V, L>, s: State<V, L>) {
    && s.r.remote == map[] && s.r.seen == {} && s.r.inflight == []
    && s.r.queue == WorkQueue({}, [], {}, {})
    && s.r.requeued == [] && s.r.outcomes == []
    && s.r.stage.Idle? && s.r.phase.Booting?
    && LabelsMatchNames(kind, s.local)
    && (s.r.tidy ==> forall n :: n in s.local ==> !kind.owns(n))
  }

  // --- Runs -------------------------------------------------------------------------------------

  ghost predicate ValidRun<V(!new), L(!new)>(kind: Kind<V, L>, s: State<V, L>, run: seq<Action<V, L>>)
    decreases |run|
  {
    run != [] ==> Enabled(kind, s, run[0]) && ValidRun(kind, Next(kind, s, run[0]), run[1..])
  }

  ghost function Final<V(!new), L(!new)>(kind: Kind<V, L>, s: State<V, L>, run: seq<Action<V, L>>): State<V, L>
    requires ValidRun(kind, s, run)
    decreases |run|
  {
    if run == [] then s else Final(kind, Next(kind, s, run[0]), run[1..])
  }

  lemma Prepend<V(!new), L(!new)>(kind: Kind<V, L>, s: State<V, L>, a: Action<V, L>, rest: seq<Action<V, L>>)
    requires Enabled(kind, s, a) && ValidRun(kind, Next(kind, s, a), rest)
    ensures ValidRun(kind, s, [a] + rest)
    ensures Final(kind, s, [a] + rest) == Final(kind, Next(kind, s, a), rest)
  {
    assert ([a] + rest)[1..] == rest;
  }

  lemma {:induction false} Concatenate<V(!new), L(!new)>(kind: Kind<V, L>, s: State<V, L>, run1: seq<Action<V, L>>,
                                                         run2: seq<Action<V, L>>)
    requires ValidRun(kind, s, run1) && ValidRun(kind, Final(kind, s, run1), run2)
    ensures ValidRun(kind, s, run1 + run2)
    ensures Final(kind, s, run1 + run2) == Final(kind, Final(kind, s, run1), run2)
    decreases |run1|
  {
    if run1 == [] {
      assert run1 + run2 == run2;
    } else {
      Concatenate(kind, Next(kind, s, run1[0]), run1[1..], run2);
      Prepend(kind, s, run1[0], run1[1..] + run2);
      assert run1 + run2 == [run1[0]] + (run1[1..] + run2);
    }
  }

  /** A change of the cache is there at once and leaves its key on the way to the queue, and no other. */
  lemma CacheChanges<V(!new), L(!new)>(kind: Kind<V, L>, s: State<V, L>, a: Action<V, L>, k: Key)
    requires Enabled(kind, s, a) && (a.CacheSet? || a.CacheDelete?)
    ensures var r := Next(kind, s, a).r;
            && (k in r.remote <==> if k == a.key then a.CacheSet? else k in s.r.remote)
            && (k in r.remote ==> r.remote[k] == if k == a.key then a.value else s.r.remote[k])
            && (k in r.inflight <==> k == a.key || k in s.r.inflight)
            && (k in r.seen <==> (k == a.key && a.CacheSet?) || k in s.r.seen)
  {
  }

  // --- The invariant ----------------------------------------------------------------------------

  /** The key is bound to be processed again from the start. */
  predicate Marked<V, L>(r: Runner<V, L>, k: Key) {
    k in r.inflight || k in r.queue.dirty
  }

  predicate Pending<V, L>(r: Runner<V, L>, k: Key) {
    k in r.inflight || r.queue.Holds(k)
  }

  ghost predicate Settled<V(!new), L(!new)>(kind: Kind<V, L>, s: State<V, L>, k: Key) {
    if k in s.r.remote then
      kind.valid(s.r.remote[k]) && kind.name(k) in s.local && kind.agrees(k, s.local[kind.name(k)], s.r.remote[k])
    else kind.name(k) !in s.local
  }

  function StageKeys<V, L>(stage: Stage<V, L>): set<Key> {
    if stage.Idle? then {} else {stage.key}
  }

  ghost predicate QueueInv<V(!new), L(!new)>(kind: Kind<V, L>, r: Runner<V, L>) {
    && r.queue.Valid()
    && r.queue.processing == StageKeys(r.stage)
    && (!r.phase.Running? ==> r.stage.Idle? && r.queue.delayed == {})
    && (forall k :: k in r.seen ==> kind.admits(k))
    && r.remote.Keys <= r.seen
    && (forall k :: Pending(r, k) ==> k in r.seen)
  }

  ghost predicate RequeuedInv<V, L>(r: Runner<V, L>) {
    && r.requeued == RequeuedAfter(r.outcomes)
    && forall k :: k in r.requeued ==>
         k in r.queue.delayed || k in r.queue.dirty || (k in r.queue.processing && !r.stage.Closing?)
  }

  /** What the worker knows about the key it is processing, unless the key is marked again. */
  ghost predicate StageInv<V(!new), L(!new)>(kind: Kind<V, L>, s: State<V, L>) {
    var r := s.r;
    match r.stage
    case Idle => true
    case Started(_) => true
    case Deleting(k) => k in r.remote ==> Marked(r, k)
    case Looking(k, v) => kind.valid(v) && (Marked(r, k) || (k in r.remote && r.remote[k] == v))
    case Creating(k, v) =>
      kind.valid(v) && kind.name(k) !in s.local && (Marked(r, k) || (k in r.remote && r.remote[k] == v))
    case Updating(k, v, l) =>
      && kind.valid(v) && kind.name(k) in s.local && s.local[kind.name(k)] == l
      && (Marked(r, k) || (k in r.remote && r.remote[k] == v))
    case Ended(k, ok) => ok ==> Marked(r, k) || Settled(kind, s, k)
    case Closing(k) => Marked(r, k) || k in r.queue.delayed || Settled(kind, s, k)
  }

  ghost predicate AgreementInv<V(!new), L(!new)>(kind: Kind<V, L>, s: State<V, L>) {
    forall k :: k in s.r.seen ==>
      || Marked(s.r, k)
      || (s.r.phase.Running? && (k in s.r.queue.processing || k in s.r.queue.delayed || Settled(kind, s, k)))
  }

  ghost predicate SyncInv<V(!new), L(!new)>(kind: Kind<V, L>, s: State<V, L>) {
    && (s.r.tidy ==> forall n :: n in s.local && kind.owns(n) ==> n in Names(kind, s.r.seen))
    && (s.r.phase.Listed? ==> s.r.phase.keep <= Names(kind, s.r.seen))
    && (s.r.phase.Syncing? ==>
          && s.r.phase.keep <= Names(kind, s.r.seen)
          && (forall n :: n in s.r.phase.todo ==> kind.owns(n))
          && (s.r.phase.exact ==>
                forall n :: n in s.local && kind.owns(n) ==> n in s.r.phase.keep || n in s.r.phase.todo))
  }

  ghost predicate Inv<V(!new), L(!new)>(kind: Kind<V, L>, s: State<V, L>) {
    && QueueInv(kind, s.r) && RequeuedInv(s.r)
    && StageInv(kind, s) && AgreementInv(kind, s)
    && LabelsMatchNames(kind, s.local) && SyncInv(kind, s)
  }

  lemma InitialInv<V(!new), L(!new)>(kind: Kind<V, L>, s: State<V, L>)
    requires Initial(kind, s)
    ensures Inv(kind, s)
  {
  }

  /** The steps of the reconcile that is under way; the others come from the surroundings, the sync and
      the queue. */
  predicate OfReconcile<V, L>(a: Action<V, L>) {
    a.ReadCache? || a.Look? || a.Write? || a.Settle? || a.Done?
  }

  lemma QueueInvOutside<V(!new), L(!new)>(kind: Kind<V, L>, s: State<V, L>, a: Action<V, L>)
    requires Inv(kind, s) && Enabled(kind, s, a) && !OfReconcile(a)
    ensures QueueInv(kind, Next(kind, s, a).r)
  {
    match a
    case Deliver => OperationsKeepKeys(s.r.queue, s.r.inflight[0]);
    case Fire(k) => OperationsKeepKeys(s.r.queue, k);
    case Get => OperationsKeepKeys(s.r.queue, s.r.queue.fifo[0]);
    case _ =>
  }

  lemma QueueInvInside<V(!new), L(!new)>(kind: Kind<V, L>, s: State<V, L>, a: Action<V, L>)
    requires Inv(kind, s) && Enabled(kind, s, a) && OfReconcile(a)
    ensures QueueInv(kind, Next(kind, s, a).r)
  {
    if a.Settle? || a.Done? {
      OperationsKeepKeys(s.r.queue, s.r.stage.key);
    }
  }

  lemma RequeuedInvSettle<V(!new), L(!new)>(kind: Kind<V, L>, s: State<V, L>)
    requires Inv(kind, s) && Enabled(kind, s, Settle)
    ensures RequeuedInv(Next(kind, s, Settle).r)
  {
    var r := s.r;
    var o := Outcome(r.stage.key, r.stage.ok);
    assert (r.outcomes + [o])[..|r.outcomes|] == r.outcomes;
    RequeuedExact(r.outcomes);
    WithoutRequeuedElements(r.requeued, r.stage.key);
  }

  lemma RequeuedInvStep<V(!new), L(!new)>(kind: Kind<V, L>, s: State<V, L>, a: Action<V, L>)
    requires Inv(kind, s) && Enabled(kind, s, a)
    ensures RequeuedInv(Next(kind, s, a).r)
  {
    if a.Settle? {
      RequeuedInvSettle(kind, s);
    }
  }

  /** A step leaves the names of other runners alone, and what it leaves under its own names
      carries its labels. */
  lemma StepStaysInOwnNames<V(!new), L(!new)>(kind: Kind<V, L>, s: State<V, L>, a: Action<V, L>, n: string)
    requires Lawful(kind) && Inv(kind, s) && Enabled(kind, s, a) && !a.External?
    ensures var after := Next(kind, s, a).local;
            && (n in after && (n !in s.local || after[n] != s.local[n]) ==> kind.owns(n) && kind.labelled(after[n]))
            && (n !in after && n in s.local ==> kind.owns(n))
  {
  }

  lemma LabelsStep<V(!new), L(!new)>(kind: Kind<V, L>, s: State<V, L>, a: Action<V, L>)
    requires Lawful(kind) && Inv(kind, s) && Enabled(kind, s, a)
    ensures LabelsMatchNames(kind, Next(kind, s, a).local)
  {
  }

  lemma StageInvOutside<V(!new), L(!new)>(kind: Kind<V, L>, s: State<V, L>, a: Action<V, L>)
    requires Lawful(kind) && Inv(kind, s) && Enabled(kind, s, a) && !OfReconcile(a)
    ensures StageInv(kind, Next(kind, s, a))
  {
  }

  lemma StageInvInside<V(!new), L(!new)>(kind: Kind<V, L>, s: State<V, L>, a: Action<V, L>)
    requires Lawful(kind) && Inv(kind, s) && Enabled(kind, s, a) && OfReconcile(a)
    ensures StageInv(kind, Next(kind, s, a))
  {
  }

  lemma AgreementOutside<V(!new), L(!new)>(kind: Kind<V, L>, s: State<V, L>, a: Action<V, L>)
    requires Lawful(kind) && Inv(kind, s) && Enabled(kind, s, a) && !OfReconcile(a)
    ensures AgreementInv(kind, Next(kind, s, a))
  {
  }

  lemma AgreementInside<V(!new), L(!new)>(kind: Kind<V, L>, s: State<V, L>, a: Action<V, L>)
    requires Lawful(kind) && Inv(kind, s) && Enabled(kind, s, a) && OfReconcile(a)
    ensures AgreementInv(kind, Next(kind, s, a))
  {
  }

  lemma SyncInvStep<V(!new), L(!new)>(kind: Kind<V, L>, s: State<V, L>, a: Action<V, L>)
    requires Lawful(kind) && Inv(kind, s) && Enabled(kind, s, a)
    ensures SyncInv(kind, Next(kind, s, a))
  {
  }

  lemma InvStep<V(!new), L(!new)>(kind: Kind<V, L>, s: State<V, L>, a: Action<V, L>)
    requires Lawful(kind) && Inv(kind, s) && Enabled(kind, s, a)
    ensures Inv(kind, Next(kind, s, a))
  {
    if OfReconcile(a) {
      QueueInvInside(kind, s, a);
      StageInvInside(kind, s, a);
      AgreementInside(kind, s, a);
    } else {
      QueueInvOutside(kind, s, a);
      StageInvOutside(kind, s, a);
      AgreementOutside(kind, s, a);
    }
    RequeuedInvStep(kind, s, a);
    LabelsStep(kind, s, a);
    SyncInvStep(kind, s, a);
  }

  lemma {:induction false} InvRun<V(!new), L(!new)>(kind: Kind<V, L>, s: State<V, L>, run: seq<Action<V, L>>)
    requires Lawful(kind) && Inv(kind, s) && ValidRun(kind, s, run)
    ensures Inv(kind, Final(kind, s, run))
    decreases |run|
  {
    if run != [] {
      InvStep(kind, s, run[0]);
      InvRun(kind, Next(kind, s, run[0]), run[1..]);
    }
  }

  // --- No update is lost ------------------------------------------------------------------------

  /** Over every run, every key that ever had an event is waiting to be processed, is being
      processed, or its mirror agrees with the cache. */
  lemma NoLostUpdate<V(!new), L(!new)>(kind: Kind<V, L>, s: State<V, L>, run: seq<Action<V, L>>, k: Key)
    requires Lawful(kind) && Initial(kind, s) && ValidRun(kind, s, run)
    requires k in Final(kind, s, run).r.seen
    ensures Pending(Final(kind, s, run).r, k) || Settled(kind, Final(kind, s, run), k)
  {
    InitialInv(kind, s);
    InvRun(kind, s, run);
  }

  /** Over every run, `requeued` has no duplicates, holds exactly the keys whose latest reconcile
      failed, and each of them is still in the queue. */
  lemma RequeuedKeysAreFailingAndQueued<V(!new), L(!new)>(kind: Kind<V, L>, s: State<V, L>, run: seq<Action<V, L>>)
    requires Lawful(kind) && Initial(kind, s) && ValidRun(kind, s, run)
    ensures var r := Final(kind, s, run).r;
            && NoDups(r.requeued)
            && (forall k :: k in r.requeued <==> LatestFailed(r.outcomes, k))
            && (forall k :: k in r.requeued ==> r.queue.Holds(k))
  {
    InitialInv(kind, s);
    InvRun(kind, s, run);
    RequeuedExact(Final(kind, s, run).r.outcomes);
  }

  // --- Convergence ------------------------------------------------------------------------------

  /** The steps that remain once caches stop changing and API calls stop failing. */
  predicate Quiet<V, L>(a: Action<V, L>) {
    match a
    case CacheSet(_, _) => false
    case CacheDelete(_) => false
    case External(_, _) => false
    case ListElsewhere(_) => false
    case SyncDelete(fault) => fault.Fine?
    case ReadCache(failed) => !failed
    case Look(failed) => !failed
    case Write(fault) => fault.Fine?
    case _ => true
  }

  ghost predicate AllValid<V(!new), L(!new)>(kind: Kind<V, L>, remote: map<Key, V>) {
    forall k :: k in remote ==> kind.valid(remote[k])
  }

  predicate Quiescent<V, L>(r: Runner<V, L>) {
    && r.phase.Running? && r.stage.Idle? && r.inflight == []
    && r.queue.dirty == {} && r.queue.fifo == [] && r.queue.delayed == {}
  }

  function StageWeight<V, L>(stage: Stage<V, L>): nat {
    match stage
    case Idle => 0
    case Started(_) => 5
    case Looking(_, _) => 4
    case Deleting(_) => 3
    case Creating(_, _) => 3
    case Updating(_, _, _) => 3
    case Ended(_, ok) => if ok then 2 else 10
    case Closing(_) => 1
  }

  function PhaseWeight<V, L>(s: State<V, L>): nat {
    match s.r.phase
    case Booting => |s.local| + 3
    case Listed(_) => |s.local| + 2
    case Syncing(_, todo, _) => |todo| + 1
    case Running => 0
  }

  function Measure<V, L>(s: State<V, L>): nat {
    8 * |s.r.inflight| + 8 * |s.r.queue.delayed| + 6 * |s.r.queue.dirty| + StageWeight(s.r.stage) + PhaseWeight(s)
  }

  lemma SubsetSize<T>(a: set<T>, b: set<T>)
    requires a <= b
    ensures |a| <= |b|
  {
    if a != {} {
      var x :| x in a;
      SubsetSize(a - {x}, b - {x});
    }
  }

  lemma ListingDecreases<V(!new), L(!new)>(kind: Kind<V, L>, s: State<V, L>, todo: seq<string>)
    requires Enabled(kind, s, ListLocal(todo))
    ensures Measure(Next(kind, s, ListLocal(todo))) < Measure(s)
  {
    NoDupsMultiset(todo);
    SubsetSize(Elements(todo), s.local.Keys);
  }

  lemma SyncStepDecreases<V(!new), L(!new)>(kind: Kind<V, L>, s: State<V, L>, a: Action<V, L>)
    requires Enabled(kind, s, a) && (a.ListRemote? || a.SyncDelete? || a.StartQueue?)
    ensures Measure(Next(kind, s, a)) < Measure(s)
  {
  }

  lemma QueueWeights<K(!new)>(q: WorkQueue<K>, key: K)
    requires q.Valid()
    ensures |q.Add(key).dirty| <= |q.dirty| + 1 && q.Add(key).delayed == q.delayed
    ensures key in q.delayed ==> |q.Fire(key).dirty| <= |q.dirty| + 1 && |q.Fire(key).delayed| == |q.delayed| - 1
    ensures q.fifo != [] ==> |q.Get().dirty| == |q.dirty| - 1 && q.Get().delayed == q.delayed
  {
  }

  lemma QueueStepDecreases<V(!new), L(!new)>(kind: Kind<V, L>, s: State<V, L>, a: Action<V, L>)
    requires s.r.queue.Valid() && Enabled(kind, s, a)
    requires a.Deliver? || a.Fire? || a.Get?
    ensures Measure(Next(kind, s, a)) < Measure(s)
  {
    var q := s.r.queue;
    match a
    case Deliver => QueueWeights(q, s.r.inflight[0]);
    case Fire(k) => QueueWeights(q, k);
    case Get => QueueWeights(q, q.fifo[0]);
  }

  lemma CallStepDecreases<V(!new), L(!new)>(kind: Kind<V, L>, s: State<V, L>, a: Action<V, L>)
    requires StageInv(kind, s) && AllValid(kind, s.r.remote) && Quiet(a) && Enabled(kind, s, a)
    requires a.ReadCache? || a.Look? || a.Write?
    ensures StageWeight(Next(kind, s, a).r.stage) < StageWeight(s.r.stage)
    ensures Next(kind, s, a).r.queue == s.r.queue && Next(kind, s, a).r.inflight == s.r.inflight
  {
  }

  lemma OutcomeStepDecreases<V(!new), L(!new)>(kind: Kind<V, L>, s: State<V, L>, a: Action<V, L>)
    requires s.r.phase.Running? && Enabled(kind, s, a) && (a.Settle? || a.Done?)
    ensures Measure(Next(kind, s, a)) < Measure(s)
  {
    if a.Settle? && !s.r.stage.ok {
      assert |(s.r.queue.delayed + {s.r.stage.key})| <= |s.r.queue.delayed| + 1;
    }
  }

  lemma StageStepDecreases<V(!new), L(!new)>(kind: Kind<V, L>, s: State<V, L>, a: Action<V, L>)
    requires Inv(kind, s) && AllValid(kind, s.r.remote) && Quiet(a) && Enabled(kind, s, a) && OfReconcile(a)
    ensures Measure(Next(kind, s, a)) < Measure(s)
  {
    assert s.r.phase.Running?;
    if a.Settle? || a.Done? {
      OutcomeStepDecreases(kind, s, a);
    } else {
      CallStepDecreases(kind, s, a);
    }
  }

  /** Each quiet step brings the measure down. */
  lemma QuietStepDecreases<V(!new), L(!new)>(kind: Kind<V, L>, s: State<V, L>, a: Action<V, L>)
    requires Inv(kind, s) && AllValid(kind, s.r.remote)
    requires Quiet(a) && Enabled(kind, s, a)
    ensures Measure(Next(kind, s, a)) < Measure(s)
  {
    match a
    case ListRemote => SyncStepDecreases(kind, s, a);
    case ListLocal(todo) => ListingDecreases(kind, s, todo);
    case SyncDelete(_) => SyncStepDecreases(kind, s, a);
    case StartQueue => SyncStepDecreases(kind, s, a);
    case Deliver => QueueStepDecreases(kind, s, a);
    case Fire(_) => QueueStepDecreases(kind, s, a);
    case Get => QueueStepDecreases(kind, s, a);
    case _ => StageStepDecreases(kind, s, a);
  }

  /** Some quiet step is possible until everything is quiescent, and none afterwards. */
  lemma QuietStepExists<V(!new), L(!new)>(kind: Kind<V, L>, s: State<V, L>)
    requires Inv(kind, s)
    ensures (exists a :: Quiet(a) && Enabled(kind, s, a)) <==> !Quiescent(s.r)
  {
    var r := s.r;
    if Quiescent(r) {
      return;
    }
    var a: Action<V, L>;
    if r.inflight != [] {
      a := Deliver;
    } else if r.phase.Booting? {
      a := ListRemote;
    } else if r.phase.Listed? {
      a := StartQueue;
    } else if r.phase.Syncing? {
      a := if r.phase.todo == [] then StartQueue else SyncDelete(Fine);
    } else if !r.stage.Idle? {
      a := match r.stage {
        case Started(_) => ReadCache(false)
        case Looking(_, _) => Look(false)
        case Ended(_, _) => Settle
        case Closing(_) => Done
        case _ => Write(Fine)
      };
    } else if r.queue.delayed != {} {
      var k :| k in r.queue.delayed;
      a := Fire(k);
    } else {
      if r.queue.dirty != {} {
        var k :| k in r.queue.dirty;
        assert k in r.queue.fifo;
      }
      a := Get;
    }
    assert Quiet(a) && Enabled(kind, s, a);
  }

  ghost predicate AllQuiet<V(!new), L(!new)>(run: seq<Action<V, L>>) {
    forall a :: a in run ==> Quiet(a)
  }

  lemma QuietStepKeepsCache<V(!new), L(!new)>(kind: Kind<V, L>, s: State<V, L>, a: Action<V, L>)
    requires Enabled(kind, s, a) && Quiet(a)
    ensures Next(kind, s, a).r.remote == s.r.remote && Next(kind, s, a).r.seen == s.r.seen
  {
  }

  lemma {:induction false} QuietRunKeepsCache<V(!new), L(!new)>(kind: Kind<V, L>, s: State<V, L>,
                                                                run: seq<Action<V, L>>)
    requires ValidRun(kind, s, run) && AllQuiet(run)
    ensures Final(kind, s, run).r.remote == s.r.remote && Final(kind, s, run).r.seen == s.r.seen
    decreases |run|
  {
    if run != [] {
      assert run[0] in run && forall a :: a in run[1..] ==> a in run;
      QuietStepKeepsCache(kind, s, run[0]);
      QuietRunKeepsCache(kind, Next(kind, s, run[0]), run[1..]);
    }
  }

  /** No quiet run is longer than the measure. */
  lemma {:induction false} QuietRunsAreBounded<V(!new), L(!new)>(kind: Kind<V, L>, s: State<V, L>,
                                                                 run: seq<Action<V, L>>)
    requires Lawful(kind) && Inv(kind, s) && AllValid(kind, s.r.remote)
    requires ValidRun(kind, s, run) && AllQuiet(run)
    ensures |run| + Measure(Final(kind, s, run)) <= Measure(s)
    decreases |run|
  {
    if run != [] {
      assert run[0] in run && forall a :: a in run[1..] ==> a in run;
      QuietStepDecreases(kind, s, run[0]);
      QuietStepKeepsCache(kind, s, run[0]);
      InvStep(kind, s, run[0]);
      QuietRunsAreBounded(kind, Next(kind, s, run[0]), run[1..]);
    }
  }

  /** At rest, the mirrors of all keys ever seen are exactly the image of the cache, and no key is
      reported as failing. */
  lemma QuiescentAgrees<V(!new), L(!new)>(kind: Kind<V, L>, s: State<V, L>)
    requires Inv(kind, s) && Quiescent(s.r)
    ensures forall k :: k in s.r.seen ==> Settled(kind, s, k)
    ensures AllValid(kind, s.r.remote)
    ensures |s.r.requeued| == 0
  {
    forall k | k in s.r.remote ensures kind.valid(s.r.remote[k]) {
      assert Settled(kind, s, k);
    }
    RequeuedExact(s.r.outcomes);
    NoDupsMultiset(s.r.requeued);
    assert Elements(s.r.requeued) == {};
  }

  /** Quiet steps can always be continued to rest. */
  lemma {:induction false} DrainExists<V(!new), L(!new)>(kind: Kind<V, L>, s: State<V, L>)
      returns (run: seq<Action<V, L>>)
    requires Lawful(kind) && Inv(kind, s) && AllValid(kind, s.r.remote)
    ensures ValidRun(kind, s, run) && AllQuiet(run) && Quiescent(Final(kind, s, run).r)
    decreases Measure(s)
  {
    if Quiescent(s.r) {
      return [];
    }
    QuietStepExists(kind, s);
    var a :| Quiet(a) && Enabled(kind, s, a);
    QuietStepDecreases(kind, s, a);
    QuietStepKeepsCache(kind, s, a);
    InvStep(kind, s, a);
    var rest := DrainExists(kind, Next(kind, s, a));
    Prepend(kind, s, a, rest);
    run := [a] + rest;
  }

  ghost predicate CanDrain<V(!new), L(!new)>(kind: Kind<V, L>, s: State<V, L>) {
    exists run :: ValidRun(kind, s, run) && AllQuiet(run) && Quiescent(Final(kind, s, run).r)
  }

  /** Once the surroundings are quiet the runner comes to rest exactly when every cached object is
      one that the reconcile function accepts. */
  lemma DrainsExactlyWhenValid<V(!new), L(!new)>(kind: Kind<V, L>, s: State<V, L>)
    requires Lawful(kind) && Inv(kind, s)
    ensures CanDrain(kind, s) <==> AllValid(kind, s.r.remote)
  {
    if AllValid(kind, s.r.remote) {
      var run := DrainExists(kind, s);
    }
    if run :| ValidRun(kind, s, run) && AllQuiet(run) && Quiescent(Final(kind, s, run).r) {
      InvRun(kind, s, run);
      QuietRunKeepsCache(kind, s, run);
      QuiescentAgrees(kind, Final(kind, s, run));
    }
  }

  /** From any reachable state, once the surroundings are quiet: no run is longer than the measure,
      a run that cannot be continued is at rest, and there every mirror agrees with the cache. */
  lemma Converges<V(!new), L(!new)>(kind: Kind<V, L>, s: State<V, L>, before: seq<Action<V, L>>, run: seq<Action<V, L>>)
    requires Lawful(kind) && Initial(kind, s) && ValidRun(kind, s, before)
    requires AllValid(kind, Final(kind, s, before).r.remote)
    requires ValidRun(kind, Final(kind, s, before), run) && AllQuiet(run)
    ensures var mid := Final(kind, s, before);
            var end := Final(kind, mid, run);
            && |run| <= Measure(mid)
            && ((forall a :: Quiet(a) ==> !Enabled(kind, end, a)) <==> Quiescent(end.r))
            && (Quiescent(end.r) ==> forall k :: k in mid.r.seen ==> Settled(kind, end, k))
            && end.r.remote == mid.r.remote
  {
    InitialInv(kind, s);
    InvRun(kind, s, before);
    var mid := Final(kind, s, before);
    QuietRunsAreBounded(kind, mid, run);
    QuietRunKeepsCache(kind, mid, run);
    InvRun(kind, mid, run);
    var end := Final(kind, mid, run);
    QuietStepExists(kind, end);
    if Quiescent(end.r) {
      QuiescentAgrees(kind, end);
    }
  }

  // --- Start-up ---------------------------------------------------------------------------------

  ghost predicate ExactImage<V(!new), L(!new)>(kind: Kind<V, L>, s: State<V, L>) {
    && (forall n :: n in s.local && kind.labelled(s.local[n]) <==> n in Names(kind, s.r.remote.Keys))
    && (forall k :: k in s.r.remote ==> kind.agrees(k, s.local[kind.name(k)], s.r.remote[k]))
  }

  lemma TidyRestIsExact<V(!new), L(!new)>(kind: Kind<V, L>, s: State<V, L>)
    requires Lawful(kind) && Inv(kind, s) && s.r.tidy && Quiescent(s.r)
    ensures ExactImage(kind, s)
  {
  }

  /** A runner that started tidy, or whose sync ran to its end, and that came to rest leaves the
      objects carrying its labels exactly equal to the image of its cache. */
  lemma StartupExact<V(!new), L(!new)>(kind: Kind<V, L>, s: State<V, L>, run: seq<Action<V, L>>)
    requires Lawful(kind) && Initial(kind, s) && ValidRun(kind, s, run)
    requires Final(kind, s, run).r.tidy && Quiescent(Final(kind, s, run).r)
    ensures ExactImage(kind, Final(kind, s, run))
  {
    InitialInv(kind, s);
    InvRun(kind, s, run);
    TidyRestIsExact(kind, Final(kind, s, run));
  }

  /** A mirror that the sync deletes although its object is in the cache by now belongs to a key
      that is still to be processed. */
  lemma SyncDeletesOnlyStaleOrPending<V(!new), L(!new)>(kind: Kind<V, L>, s: State<V, L>, a: Action<V, L>, k: Key)
    requires Lawful(kind) && Inv(kind, s) && Enabled(kind, s, a) && a.SyncDelete?
    requires kind.name(k) in s.local && kind.name(k) !in Next(kind, s, a).local
    ensures k in s.r.seen ==> Marked(Next(kind, s, a).r, k)
    ensures kind.labelled(s.local[kind.name(k)]) && kind.name(k) !in s.r.phase.keep
  {
  }

  // --- A reconcile and a sync without interruptions ----------------------------------------------

  /** Which of the calls of one reconcile fail. */
  datatype Faults = Faults(read: bool, look: bool, write: Fault)

  /** The local objects and the result after a reconcile that nothing interleaves with. */
  ghost function ReconcileOnce<V(!new), L(!new)>(kind: Kind<V, L>, remote: map<Key, V>, local: map<string, L>, k: Key,
                                                 faults: Faults): (map<string, L>, bool) {
    match AfterRead(kind, remote, k, faults.read)
    case Looking(_, v) =>
      (match AfterLook(kind, local, k, v, faults.look)
       case Creating(_, _) => ApiWrite(kind, local, AfterLook(kind, local, k, v, faults.look), faults.write)
       case Updating(_, _, _) => ApiWrite(kind, local, AfterLook(kind, local, k, v, faults.look), faults.write)
       case _ => (local, false))
    case Deleting(_) => ApiWrite(kind, local, Deleting(k), faults.write)
    case _ => (local, false)
  }

  lemma WriteIsARun<V(!new), L(!new)>(kind: Kind<V, L>, s: State<V, L>, fault: Fault)
    requires Enabled(kind, s, Write(fault))
    ensures ValidRun(kind, s, [Write(fault)]) && Final(kind, s, [Write(fault)]) == Next(kind, s, Write(fault))
  {
    var empty: seq<Action<V, L>> := [];
    Prepend(kind, s, Write(fault), empty);
    assert [Write(fault)] + empty == [Write(fault)];
  }

  lemma LookAndWrite<V(!new), L(!new)>(kind: Kind<V, L>, s: State<V, L>, faults: Faults)
      returns (run: seq<Action<V, L>>)
    requires s.r.stage.Looking?
    ensures run == [Look(faults.look)] || run == [Look(faults.look), Write(faults.write)]
    ensures ValidRun(kind, s, run)
    ensures var Looking(k, v) := s.r.stage;
            var next := AfterLook(kind, s.local, k, v, faults.look);
            var (local, ok) := if next.Ended? then (s.local, false) else ApiWrite(kind, s.local, next, faults.write);
            Final(kind, s, run) == State(s.r.(stage := Ended(k, ok)), local)
  {
    var looked := Next(kind, s, Look(faults.look));
    run := [];
    if !looked.r.stage.Ended? {
      run := [Write(faults.write)];
      WriteIsARun(kind, looked, faults.write);
    }
    Prepend(kind, s, Look(faults.look), run);
    run := [Look(faults.look)] + run;
  }

  /** The stages of the step system, taken one after the other, make up that reconcile. */
  lemma ReconcileOnceIsARun<V(!new), L(!new)>(kind: Kind<V, L>, s: State<V, L>, faults: Faults)
      returns (run: seq<Action<V, L>>)
    requires s.r.stage.Started?
    ensures ValidRun(kind, s, run)
    ensures run != [] && run[0] == ReadCache(faults.read)
    ensures run[1..] in {[], [Write(faults.write)], [Look(faults.look)], [Look(faults.look), Write(faults.write)]}
    ensures var k := s.r.stage.key;
            var (local, ok) := ReconcileOnce(kind, s.r.remote, s.local, k, faults);
            Final(kind, s, run) == State(s.r.(stage := Ended(k, ok)), local)
  {
    var read := Next(kind, s, ReadCache(faults.read));
    var rest: seq<Action<V, L>> := [];
    if read.r.stage.Deleting? {
      rest := [Write(faults.write)];
      WriteIsARun(kind, read, faults.write);
    } else if read.r.stage.Looking? {
      rest := LookAndWrite(kind, read, faults);
    }
    Prepend(kind, s, ReadCache(faults.read), rest);
    run := [ReadCache(faults.read)] + rest;
    assert run[1..] == rest;
  }

  /** A turn of the worker that nothing interleaves with: Get, that reconcile, requeue or forget, Done. */
  lemma TurnIsARun<V(!new), L(!new)>(kind: Kind<V, L>, s: State<V, L>, faults: Faults)
      returns (run: seq<Action<V, L>>)
    requires Inv(kind, s) && Enabled(kind, s, Get)
    ensures ValidRun(kind, s, run)
    ensures var k := s.r.queue.fifo[0];
            var (local, ok) := ReconcileOnce(kind, s.r.remote, s.local, k, faults);
            var o := Outcome(k, ok);
            Final(kind, s, run) == State(s.r.(queue := s.r.queue.Turn([], ok), requeued := Record(s.r.requeued, o),
                                              outcomes := s.r.outcomes + [o]), local)
  {
    var got := Next(kind, s, Get);
    var reconcile := ReconcileOnceIsARun(kind, got, faults);
    var ended := Final(kind, got, reconcile);
    var settled := Next(kind, ended, Settle);
    Prepend(kind, settled, Done, []);
    Prepend(kind, ended, Settle, [Done] + []);
    var rest: seq<Action<V, L>> := [Settle] + ([Done] + []);
    Concatenate(kind, got, reconcile, rest);
    Prepend(kind, s, Get, reconcile + rest);
    run := [Get] + (reconcile + rest);
  }

  /** A reconcile succeeds exactly when the cached object is acceptable and all its calls do. One that gets
      to its write and is not turned down leaves the mirror of its key in agreement with the cache, made or
      updated as the kind says; any other leaves all as it was; and no other name is touched. */
  lemma ReconcileSettles<V(!new), L(!new)>(kind: Kind<V, L>, s: State<V, L>, k: Key, faults: Faults, n: string)
    requires WritesLawful(kind)
    ensures var (local, ok) := ReconcileOnce(kind, s.r.remote, s.local, k, faults);
            var asked := !faults.read && (k in s.r.remote ==> kind.valid(s.r.remote[k]) && !faults.look);
            var m := kind.name(k);
            && (ok <==> asked && faults.write.Fine?)
            && (!asked || faults.write.Refused? ==> local == s.local)
            && (asked && !faults.write.Refused? ==>
                  && Settled(kind, s.(local := local), k)
                  && (k in s.r.remote ==>
                        m in local && local[m] == if m in s.local then kind.update(k, s.local[m], s.r.remote[k])
                                                  else kind.create(k, s.r.remote[k])))
            && (n != m ==> (n in local <==> n in s.local) && (n in local ==> local[n] == s.local[n]))
  {
  }

  /** Deletes what is listed and not kept, giving up at the first error. */
  ghost function SyncFrom<L>(keep: set<string>, listing: seq<string>, i: nat, local: map<string, L>,
                             faults: nat -> Fault): (map<string, L>, bool)
    requires i <= |listing|
    decreases |listing| - i
  {
    if i == |listing| then (local, true)
    else if listing[i] in keep then SyncFrom(keep, listing, i + 1, local, faults)
    else if faults(i).Refused? || listing[i] !in local then (local, false)
    else if faults(i).LostReply? then (local - {listing[i]}, false)
    else SyncFrom(keep, listing, i + 1, local - {listing[i]}, faults)
  }

  /** The sync gets past a listed name that is kept, or present when its turn comes and deleted at once. */
  ghost predicate GoesOn<L>(keep: set<string>, listing: seq<string>, i: nat, j: nat, local: map<string, L>,
                            faults: nat -> Fault)
    requires i <= j < |listing|
  {
    listing[j] in keep || (faults(j).Fine? && listing[j] in local && listing[j] !in listing[i..j])
  }

  ghost function Stale(keep: set<string>, listed: seq<string>): set<string> {
    set n | n in listed && n !in keep
  }

  /** A sync succeeds exactly when it gets past every listed name, and has then deleted exactly those
      without a source. One that fails at some name has deleted exactly those before it, and that one too
      if only the reply was lost. */
  lemma {:induction false} SyncDeletesExactlyStale<L>(keep: set<string>, listing: seq<string>, i: nat,
                                                      local: map<string, L>, faults: nat -> Fault)
      returns (end: nat)
    requires i <= |listing|
    ensures i <= end <= |listing|
    ensures forall j :: i <= j < end ==> GoesOn(keep, listing, i, j, local, faults)
    ensures end < |listing| ==> !GoesOn(keep, listing, i, end, local, faults)
    ensures var (after, ok) := SyncFrom(keep, listing, i, local, faults);
            && (ok <==> end == |listing|)
            && after == local - Stale(keep, listing[i..end])
                          - (if end < |listing| && faults(end).LostReply? then {listing[end]} else {})
    decreases |listing| - i
  {
    end := i;
    if i < |listing| && GoesOn(keep, listing, i, i, local, faults) {
      var n := listing[i];
      var rest := if n in keep then local else local - {n};
      end := SyncDeletesExactlyStale(keep, listing, i + 1, rest, faults);
      assert listing[i..end] == [n] + listing[i + 1..end];
      forall j | i < j < |listing|
        ensures GoesOn(keep, listing, i, j, local, faults) <==> GoesOn(keep, listing, i + 1, j, rest, faults)
      {
        assert listing[i..j] == [n] + listing[i + 1..j];
      }
      assert Stale(keep, listing[i..end]) == Stale(keep, listing[i + 1..end]) + (if n in keep then {} else {n});
    }
  }

  ghost predicate SweepsUpTo<L>(keep: set<string>, listing: seq<string>, end: nat, local: map<string, L>,
                                faults: nat -> Fault, after: map<string, L>, ok: bool)
    requires end <= |listing|
  {
    && (forall j :: 0 <= j < end ==> GoesOn(keep, listing, 0, j, local, faults))
    && (end < |listing| ==> !GoesOn(keep, listing, 0, end, local, faults))
    && (ok <==> end == |listing|)
    && after == local - Stale(keep, listing[..end])
                  - (if end < |listing| && faults(end).LostReply? then {listing[end]} else {})
  }

  /** What a whole sync does, in one statement. */
  ghost predicate Sweeps<L>(keep: set<string>, listing: seq<string>, local: map<string, L>, faults: nat -> Fault,
                            after: map<string, L>, ok: bool) {
    exists end :: 0 <= end <= |listing| && SweepsUpTo(keep, listing, end, local, faults, after, ok)
  }

  lemma SyncSweeps<L>(keep: set<string>, listing: seq<string>, local: map<string, L>, faults: nat -> Fault)
    ensures var (after, ok) := SyncFrom(keep, listing, 0, local, faults);
            Sweeps(keep, listing, local, faults, after, ok)
  {
    var (after, ok) := SyncFrom(keep, listing, 0, local, faults);
    var end := SyncDeletesExactlyStale(keep, listing, 0, local, faults);
    assert listing[0..end] == listing[..end];
    assert SweepsUpTo(keep, listing, end, local, faults, after, ok);
  }

  /** Every listed name is there, once, and its delete succeeds. */
  ghost predicate Clean<L>(listing: seq<string>, local: map<string, L>, faults: nat -> Fault) {
    NoDups(listing) && forall j :: 0 <= j < |listing| ==> listing[j] in local && faults(j).Fine?
  }

  /** Without faults, and with every listed name there once, the sync succeeds and deletes what is stale. */
  lemma FaultFreeSync<L>(keep: set<string>, listing: seq<string>, local: map<string, L>, faults: nat -> Fault)
    requires Clean(listing, local, faults)
    ensures SyncFrom(keep, listing, 0, local, faults) == (local - Stale(keep, listing), true)
  {
    forall j | 0 <= j < |listing| ensures GoesOn(keep, listing, 0, j, local, faults) {
      assert listing[j] !in listing[0..j];
    }
    var end := SyncDeletesExactlyStale(keep, listing, 0, local, faults);
    assert end == |listing| && listing[0..|listing|] == listing;
    assert local - Stale(keep, listing) - {} == local - Stale(keep, listing);
  }

  /** With the runner's own labelled objects listed, a successful sync deletes exactly those without a
      source in the cache, and a failed one only some of them. */
  lemma SyncExact<V(!new), L(!new)>(kind: Kind<V, L>, remote: map<Key, V>, listing: seq<string>, local: map<string, L>,
                                    faults: nat -> Fault)
    requires forall n :: n in listing <==> n in local && kind.labelled(local[n])
    ensures var (after, ok) := SyncFrom(Names(kind, remote.Keys), listing, 0, local, faults);
            && (ok ==> forall n :: n in after <==>
                n in local && !(kind.labelled(local[n]) && n !in Names(kind, remote.Keys)))
            && (forall n :: n in local && n !in after ==> kind.labelled(local[n]) && n !in Names(kind, remote.Keys))
            && (forall n :: n in after ==> n in local && after[n] == local[n])
  {
    var end := SyncDeletesExactlyStale(Names(kind, remote.Keys), listing, 0, local, faults);
    assert listing[0..|listing|] == listing;
    assert forall n :: n in listing[0..end] ==> n in listing;
  }

  lemma SyncStep<V(!new), L(!new)>(kind: Kind<V, L>, s: State<V, L>, keep: set<string>, listing: seq<string>,
                                   exact: bool, i: nat, faults: nat -> Fault)
    requires i < |listing| && s.r.phase == Syncing(keep, listing[i..], exact)
    ensures Enabled(kind, s, SyncDelete(faults(i)))
    ensures var after := Next(kind, s, SyncDelete(faults(i)));
            && after.r == s.r.(phase := after.r.phase)
            && (after.r.phase == Running || after.r.phase == Syncing(keep, listing[i + 1..], exact))
            && SyncFrom(keep, listing, i, s.local, faults) ==
               if after.r.phase == Running then (after.local, false)
               else SyncFrom(keep, listing, i + 1, after.local, faults)
  {
    assert listing[i..][0] == listing[i] && listing[i..][1..] == listing[i + 1..];
  }

  /** The sync steps of the step system, taken one after the other with the given faults, make up that
      sync. */
  lemma {:induction false} SyncIsARun<V(!new), L(!new)>(kind: Kind<V, L>, s: State<V, L>, keep: set<string>,
                                                        listing: seq<string>, exact: bool, i: nat, faults: nat -> Fault)
      returns (run: seq<Action<V, L>>)
    requires i <= |listing| && s.r.phase == Syncing(keep, listing[i..], exact)
    ensures ValidRun(kind, s, run)
    ensures 1 <= |run| <= |listing| - i + 1
    ensures forall j :: 0 <= j < |run| ==> run[j] == if i + j < |listing| then SyncDelete(faults(i + j)) else StartQueue
    ensures var (local, ok) := SyncFrom(keep, listing, i, s.local, faults);
            Final(kind, s, run) == State(s.r.(phase := Running, tidy := s.r.tidy || (ok && exact)), local)
    decreases |listing| - i
  {
    assert i < |listing| ==> listing[i..] != [];
    var a: Action<V, L> := if i == |listing| then StartQueue else SyncDelete(faults(i));
    var after := Next(kind, s, a);
    var rest: seq<Action<V, L>> := [];
    if i < |listing| {
      SyncStep(kind, s, keep, listing, exact, i, faults);
      if after.r.phase.Syncing? {
        rest := SyncIsARun(kind, after, keep, listing, exact, i + 1, faults);
      }
    }
    Prepend(kind, s, a, rest);
    run := [a] + rest;
    forall j | 0 <= j < |run| ensures run[j] == if i + j < |listing| then SyncDelete(faults(i + j)) else StartQueue {
      if j > 0 {
        assert run[j] == rest[j - 1];
      }
    }
  }

  /** A runner that lists its sources and its own labelled objects and meets no fault ends its sync tidy,
      with exactly the labelled objects deleted that are no mirror of a cached key. */
  lemma FaultFreeSyncEndsTidy<V(!new), L(!new)>(kind: Kind<V, L>, s: State<V, L>, listing: seq<string>,
                                                faults: nat -> Fault)
      returns (run: seq<Action<V, L>>)
    requires Enabled(kind, s, ListRemote) && Enabled(kind, Next(kind, s, ListRemote), ListLocal(listing))
    requires forall j :: 0 <= j < |listing| ==> faults(j).Fine?
    ensures |run| >= 2 && run[0] == ListRemote && run[1] == ListLocal(listing)
    ensures forall j :: 2 <= j < |run| ==> run[j] == if j - 2 < |listing| then SyncDelete(faults(j - 2)) else StartQueue
    ensures ValidRun(kind, s, run)
    ensures var end := Final(kind, s, run);
            && end.r == s.r.(phase := Running, tidy := true)
            && (forall n :: n in end.local <==>
                  n in s.local && (kind.labelled(s.local[n]) ==> exists k :: k in s.r.remote && n == kind.name(k)))
            && (forall n :: n in end.local ==> end.local[n] == s.local[n])
  {
    var ready := Next(kind, s, ListRemote);
    var listed := Next(kind, ready, ListLocal(listing));
    var keep := ready.r.phase.keep;
    assert listing[0..] == listing;
    var rest := SyncIsARun(kind, listed, keep, listing, true, 0, faults);
    FaultFreeSync(keep, listing, s.local, faults);
    assert forall n :: n in keep <==> exists k :: k in s.r.remote && n == kind.name(k);
    Prepend(kind, ready, ListLocal(listing), rest);
    Prepend(kind, s, ListRemote, [ListLocal(listing)] + rest);
    run := [ListRemote] + ([ListLocal(listing)] + rest);
    assert forall j :: 2 <= j < |run| ==> run[j] == rest[j - 2];
  }
}
