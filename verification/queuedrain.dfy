/** The global runners with their real work queues, once the caches stop changing: when the queues can be
    worked off, and how fast (queue.go, global_runner.go). */
module QueueDraining {
  import opened Naming
  import opened WorkQueue
  import opened QueuedRunners
  import A = Aggregation
  import C = Controller
  import D = Draining

  // --- The pending set of a state with queues --------------------------------------------------------------

  /** All keys that wait in some backlog or queue. */
  function Waiting(q: Queued): set<A.At> {
    set at | at in q.seen && Waits(q, at)
  }

  function Seen(q: Queued): A.System {
    Shadow(q, Waiting(q))
  }

  ghost predicate Sound(cfg: A.Config, q: Queued) {
    QueuesInv(cfg, q) && A.Inv(cfg, Seen(q)) && D.HeldInv(Seen(q))
  }

  lemma KindsIgnorePending(sys: A.System, pending: set<A.At>)
    ensures D.AllOfOneKind(sys.(pending := pending)) <==> D.AllOfOneKind(sys)
    ensures D.Drainable(sys.(pending := pending)) <==> D.Drainable(sys)
  {
    assert forall at :: D.Stuck(sys.(pending := pending), at) <==> D.Stuck(sys, at);
  }

  lemma MorePending(cfg: A.Config, sys: A.System, pending: set<A.At>)
    requires A.Inv(cfg, sys) && D.HeldInv(sys) && sys.pending <= pending <= sys.seen
    ensures A.Inv(cfg, sys.(pending := pending)) && D.HeldInv(sys.(pending := pending))
  {
    var more := sys.(pending := pending);
    forall at | at in more.seen
      ensures A.PendingSomewhere(more, at.key) || A.LocalAgrees(more.store, more.local, at.key)
    {
      if c :| A.At(c, at.key) in sys.pending {
        assert A.At(c, at.key) in more.pending;
      }
    }
  }

  /** Every run with queues stays sound; and it is matched by a run of the aggregation system. */
  lemma SoundRun(cfg: A.Config, q: Queued, run: seq<Step>)
    requires CollisionFree(cfg.keys) && Initial(cfg, q) && ValidRun(cfg, q, run)
    ensures Sound(cfg, Final(cfg, q, run))
  {
    var start := Shadow(q, {});
    var actions := RunMatches(cfg, q, start, run);
    D.HeldRun(cfg, start, actions);
    var end, last := Final(cfg, q, run), A.Final(cfg, start, actions);
    MorePending(cfg, last, Waiting(end));
  }

  // --- Steps that only move keys about -----------------------------------------------------------------------

  ghost predicate NoCacheChanges(run: seq<Step>) {
    forall step :: step in run ==> !step.CacheChange?
  }

  const READ_FAILS := C.Faults(true, false, C.Fine)

  /** A delivery, a delayed add, or a turn whose cache read fails. */
  predicate Moves(step: Step) {
    step.Deliver? || step.Fire? || (step.Turn? && step.faults == READ_FAILS)
  }

  lemma ReadFailsKeepsWaiting(cfg: A.Config, q: Queued, c: string)
    requires QueuesInv(cfg, q) && Enabled(cfg, q, Turn(c, READ_FAILS))
    ensures Seen(Next(cfg, q, Turn(c, READ_FAILS))) == Seen(q)
  {
    TurnKeepsKeys(q.intakes[c].queue, false);
    assert forall at :: Waits(Next(cfg, q, Turn(c, READ_FAILS)), at) <==> Waits(q, at);
  }

  lemma MoveKeepsWaiting(cfg: A.Config, q: Queued, step: Step)
    requires QueuesInv(cfg, q) && Enabled(cfg, q, step) && Moves(step)
    ensures QueuesInv(cfg, Next(cfg, q, step)) && Seen(Next(cfg, q, step)) == Seen(q)
  {
    QueuesInvStep(cfg, q, step);
    if step.Turn? {
      ReadFailsKeepsWaiting(cfg, q, step.cluster);
    } else {
      var c := step.cluster;
      OperationsKeepKeys(q.intakes[c].queue, if step.Deliver? then q.intakes[c].inflight[0] else step.key);
      assert forall at :: Waits(Next(cfg, q, step), at) <==> Waits(q, at);
    }
  }

  lemma Prepend(cfg: A.Config, q: Queued, step: Step, rest: seq<Step>)
    requires Enabled(cfg, q, step) && ValidRun(cfg, Next(cfg, q, step), rest)
    ensures ValidRun(cfg, q, [step] + rest) && Final(cfg, q, [step] + rest) == Final(cfg, Next(cfg, q, step), rest)
  {
  }

  lemma {:induction false} Concatenate(cfg: A.Config, q: Queued, run1: seq<Step>, run2: seq<Step>)
    requires ValidRun(cfg, q, run1) && ValidRun(cfg, Final(cfg, q, run1), run2)
    ensures ValidRun(cfg, q, run1 + run2) && Final(cfg, q, run1 + run2) == Final(cfg, Final(cfg, q, run1), run2)
    decreases |run1|
  {
    if run1 == [] {
      assert run1 + run2 == run2;
    } else {
      Concatenate(cfg, Next(cfg, q, run1[0]), run1[1..], run2);
      Prepend(cfg, q, run1[0], run1[1..] + run2);
      assert run1 + run2 == [run1[0]] + (run1[1..] + run2);
    }
  }

  // --- Bringing a key to the front -----------------------------------------------------------------------------

  /** Nothing of the cluster is on its way to the queue. */
  predicate Gathered(q: Queued, c: string) {
    c in q.intakes && q.intakes[c].inflight == [] && q.intakes[c].queue.delayed == {}
  }

  lemma {:induction false} Gather(cfg: A.Config, q: Queued, c: string) returns (run: seq<Step>)
    requires QueuesInv(cfg, q) && c in q.intakes
    ensures ValidRun(cfg, q, run) && NoCacheChanges(run)
    ensures var end := Final(cfg, q, run); QueuesInv(cfg, end) && Seen(end) == Seen(q) && Gathered(end, c)
    decreases |q.intakes[c].inflight|, |q.intakes[c].queue.delayed|
  {
    var Intake(inflight, queue) := q.intakes[c];
    var step: Step;
    if inflight != [] {
      step := Deliver(c);
    } else if queue.delayed != {} {
      var k :| k in queue.delayed;
      step := Fire(c, k);
      assert queue.Fire(k).delayed == queue.delayed - {k};
    } else {
      return [];
    }
    MoveKeepsWaiting(cfg, q, step);
    var rest := Gather(cfg, Next(cfg, q, step), c);
    Prepend(cfg, q, step, rest);
    run := [step] + rest;
  }

  /** The first key goes to the back by way of a failing read. */
  lemma Rotated(cfg: A.Config, q: Queued, c: string)
    requires QueuesInv(cfg, q) && Gathered(q, c) && q.intakes[c].queue.fifo != []
    ensures var turn, fire := Turn(c, READ_FAILS), Fire(c, q.intakes[c].queue.fifo[0]);
            && Enabled(cfg, q, turn) && Enabled(cfg, Next(cfg, q, turn), fire)
            && var after := Next(cfg, Next(cfg, q, turn), fire);
               && QueuesInv(cfg, after) && Seen(after) == Seen(q) && Gathered(after, c)
               && after.intakes[c].queue.fifo == q.intakes[c].queue.fifo[1..] + [q.intakes[c].queue.fifo[0]]
  {
    var queue := q.intakes[c].queue;
    var turn, fire := Turn(c, READ_FAILS), Fire(c, queue.fifo[0]);
    MoveKeepsWaiting(cfg, q, turn);
    MoveKeepsWaiting(cfg, Next(cfg, q, turn), fire);
    assert queue.fifo[0] in queue.fifo;
  }

  lemma {:induction false} BringForward(cfg: A.Config, q: Queued, c: string, i: nat) returns (run: seq<Step>)
    requires QueuesInv(cfg, q) && Gathered(q, c) && i < |q.intakes[c].queue.fifo|
    ensures ValidRun(cfg, q, run) && NoCacheChanges(run)
    ensures var end := Final(cfg, q, run);
            && QueuesInv(cfg, end) && Seen(end) == Seen(q) && Gathered(end, c)
            && end.intakes[c].queue.fifo != [] && end.intakes[c].queue.fifo[0] == q.intakes[c].queue.fifo[i]
    decreases i
  {
    if i == 0 {
      return [];
    }
    var turn, fire := Turn(c, READ_FAILS), Fire(c, q.intakes[c].queue.fifo[0]);
    Rotated(cfg, q, c);
    var turned := Next(cfg, q, turn);
    var rest := BringForward(cfg, Next(cfg, turned, fire), c, i - 1);
    Prepend(cfg, turned, fire, rest);
    Prepend(cfg, q, turn, [fire] + rest);
    run := [turn] + ([fire] + rest);
  }

  lemma GatheredTurn(queue: WorkQueue<Key>, reconciled: bool)
    requires queue.Valid() && queue.processing == {} && queue.fifo != [] && queue.delayed == {}
    ensures forall k :: TurnQueue(queue, reconciled).Holds(k) <==>
              if k == queue.fifo[0] then !reconciled else queue.Holds(k)
  {
    assert queue.fifo[0] in queue.fifo;
    TurnKeepsKeys(queue, reconciled);
  }

  lemma TurnWaits(cfg: A.Config, q: Queued, c: string, faults: C.Faults)
    requires QueuesInv(cfg, q) && Gathered(q, c) && Enabled(cfg, q, Turn(c, faults))
    ensures var at := A.At(c, q.intakes[c].queue.fifo[0]);
            forall o :: Waits(Next(cfg, q, Turn(c, faults)), o) <==>
                          if o == at then !TurnEffect(cfg, q, c, faults).verdict.Reconciled? else Waits(q, o)
  {
    GatheredTurn(q.intakes[c].queue, TurnEffect(cfg, q, c, faults).verdict.Reconciled?);
  }

  /** With its key in front and nothing else of it on the way, a turn is that reconcile. */
  lemma TurnReconciles(cfg: A.Config, q: Queued, c: string, faults: C.Faults)
    requires Sound(cfg, q) && Gathered(q, c) && Enabled(cfg, q, Turn(c, faults))
    ensures var at := A.At(c, q.intakes[c].queue.fifo[0]);
            A.Enabled(cfg, Seen(q), A.Reconcile(at, faults))
            && QueuesInv(cfg, Next(cfg, q, Turn(c, faults)))
            && Seen(Next(cfg, q, Turn(c, faults))) == A.Next(cfg, Seen(q), A.Reconcile(at, faults))
  {
    var at := A.At(c, q.intakes[c].queue.fifo[0]);
    assert q.intakes[c].queue.fifo[0] in q.intakes[c].queue.fifo && Waits(q, at);
    assert A.EffectOf(cfg, Seen(q), at, faults) == TurnEffect(cfg, q, c, faults);
    QueuesInvStep(cfg, q, Turn(c, faults));
    TurnWaits(cfg, q, c, faults);
    assert Waiting(Next(cfg, q, Turn(c, faults))) == A.Next(cfg, Seen(q), A.Reconcile(at, faults)).pending;
  }

  /** The reconcile of any waiting key can be brought about. */
  lemma ReconcileWaiting(cfg: A.Config, q: Queued, at: A.At, faults: C.Faults) returns (run: seq<Step>)
    requires Sound(cfg, q) && at in Waiting(q) && A.Enabled(cfg, Seen(q), A.Reconcile(at, faults))
    ensures ValidRun(cfg, q, run) && NoCacheChanges(run)
    ensures var end := Final(cfg, q, run);
            QueuesInv(cfg, end) && Seen(end) == A.Next(cfg, Seen(q), A.Reconcile(at, faults))
  {
    var c, turn := at.cluster, Turn(at.cluster, faults);
    var gather := Gather(cfg, q, c);
    var gathered := Final(cfg, q, gather);
    assert at in Waiting(gathered);
    var fifo := gathered.intakes[c].queue.fifo;
    assert at.key in fifo;
    var i :| 0 <= i < |fifo| && fifo[i] == at.key;
    var forward := BringForward(cfg, gathered, c, i);
    var front := Final(cfg, gathered, forward);
    assert A.EffectOf(cfg, Seen(front), at, faults) == TurnEffect(cfg, front, c, faults);
    TurnReconciles(cfg, front, c, faults);
    Prepend(cfg, front, turn, []);
    assert [turn] + [] == [turn];
    Concatenate(cfg, gathered, forward, [turn]);
    Concatenate(cfg, q, gather, forward + [turn]);
    run := gather + (forward + [turn]);
  }

  // --- When the queues can be worked off ---------------------------------------------------------------------------

  ghost predicate CanDrain(cfg: A.Config, q: Queued) {
    exists run :: ValidRun(cfg, q, run) && NoCacheChanges(run) && AllQueuesEmpty(Final(cfg, q, run))
  }

  lemma NothingHeld(cfg: A.Config, q: Queued, c: string)
    requires QueuesInv(cfg, q) && Waiting(q) == {} && c in q.intakes
    ensures q.intakes[c] == Intake([], WorkQueue({}, [], {}, {}))
  {
    var Intake(inflight, queue) := q.intakes[c];
    assert inflight != [] ==> inflight[0] in inflight;
    assert queue.fifo != [] ==> queue.fifo[0] in queue.fifo;
    forall k ensures k !in inflight && k !in queue.dirty && k !in queue.processing && k !in queue.delayed {
      assert A.At(c, k) !in Waiting(q) && !Waits(q, A.At(c, k)) && !queue.Holds(k);
    }
    assert queue.dirty == {} && queue.processing == {} && queue.delayed == {};
  }

  lemma NothingWaitsWhenEmpty(cfg: A.Config, q: Queued)
    requires QueuesInv(cfg, q)
    ensures AllQueuesEmpty(q) <==> Waiting(q) == {}
  {
    if Waiting(q) == {} {
      forall c | c in q.intakes ensures q.intakes[c] == Intake([], WorkQueue({}, [], {}, {})) {
        NothingHeld(cfg, q, c);
      }
    } else {
      var at :| at in Waiting(q);
      assert !AllQueuesEmpty(q);
    }
  }

  lemma {:induction false} DrainQueues(cfg: A.Config, q: Queued) returns (run: seq<Step>)
    requires CollisionFree(cfg.keys) && Sound(cfg, q) && D.Drainable(Seen(q))
    ensures ValidRun(cfg, q, run) && NoCacheChanges(run) && AllQueuesEmpty(Final(cfg, q, run))
    decreases D.Backlog(Seen(q))
  {
    NothingWaitsWhenEmpty(cfg, q);
    if AllQueuesEmpty(q) {
      return [];
    }
    var at, faults := D.DrainStep(cfg, Seen(q));
    var first := ReconcileWaiting(cfg, q, at, faults);
    var rest := DrainQueues(cfg, Final(cfg, q, first));
    Concatenate(cfg, q, first, rest);
    run := first + rest;
  }

  lemma {:induction false} MatchedRun(cfg: A.Config, q: Queued, sys: A.System, run: seq<Step>)
      returns (actions: seq<A.Action>)
    requires QueuesInv(cfg, q) && Matches(q, sys) && ValidRun(cfg, q, run) && NoCacheChanges(run)
    ensures A.ValidRun(cfg, sys, actions) && D.NoChanges(actions)
    ensures QueuesInv(cfg, Final(cfg, q, run)) && Matches(Final(cfg, q, run), A.Final(cfg, sys, actions))
    decreases |run|
  {
    if run == [] {
      return [];
    }
    assert run[0] in run && forall step :: step in run[1..] ==> step in run;
    StepMatches(cfg, q, sys, run[0]);
    QueuesInvStep(cfg, q, run[0]);
    var first := Matching(q, run[0]);
    actions := MatchedRun(cfg, Next(cfg, q, run[0]), A.Final(cfg, sys, first), run[1..]);
    if first != [] {
      assert first == [first[0]] + [];
      A.Prepend(cfg, sys, first[0], []);
      A.Prepend(cfg, sys, first[0], actions);
      actions := [first[0]] + actions;
    }
  }

  lemma EmptiedWasDrainable(cfg: A.Config, q: Queued, run: seq<Step>)
    requires CollisionFree(cfg.keys) && Sound(cfg, q)
    requires ValidRun(cfg, q, run) && NoCacheChanges(run) && AllQueuesEmpty(Final(cfg, q, run))
    ensures D.Drainable(Seen(q))
  {
    var actions := MatchedRun(cfg, q, Seen(q), run);
    var end := A.Final(cfg, Seen(q), actions);
    assert forall at :: !Waits(Final(cfg, q, run), at);
    assert end.pending == {};
    D.DrainedWasDrainable(cfg, Seen(q), actions);
  }

  /** From every state that the runners reach with their queues, once the caches stop changing: some run
      empties all backlogs and queues exactly when the clusters that have a service have it in one kind,
      which is also the kind of the entry if one of them is listed there. */
  lemma QueuesDrainExactly(cfg: A.Config, start: Queued, before: seq<Step>)
    requires CollisionFree(cfg.keys) && Initial(cfg, start) && ValidRun(cfg, start, before)
    ensures var mid := Final(cfg, start, before); CanDrain(cfg, mid) <==> D.Drainable(Shadow(mid, {}))
  {
    SoundRun(cfg, start, before);
    var mid := Final(cfg, start, before);
    KindsIgnorePending(Seen(mid), {});
    assert Seen(mid).(pending := {}) == Shadow(mid, {});
    if D.Drainable(Seen(mid)) {
      var run := DrainQueues(cfg, mid);
    }
    if run :| ValidRun(cfg, mid, run) && NoCacheChanges(run) && AllQueuesEmpty(Final(cfg, mid, run)) {
      EmptiedWasDrainable(cfg, mid, run);
    }
  }

  // --- How fast ----------------------------------------------------------------------------------------------------

  /** The steps that remain once caches stop changing and calls stop failing. */
  predicate Quiet(step: Step) {
    step.Deliver? || step.Fire? || (step.Turn? && step.faults == A.NO_FAULTS)
  }

  ghost predicate AllQuiet(run: seq<Step>) {
    forall step :: step in run ==> Quiet(step)
  }

  function LoadOf(intake: Intake): nat {
    2 * |intake.inflight| + 2 * |intake.queue.delayed| + |intake.queue.dirty|
  }

  ghost function Load(intakes: map<string, Intake>): nat
    decreases |intakes|
  {
    if intakes == map[] then 0
    else
      var c :| c in intakes;
      LoadOf(intakes[c]) + Load(intakes - {c})
  }

  lemma {:induction false} LoadSplits(intakes: map<string, Intake>, c: string)
    requires c in intakes
    ensures Load(intakes) == LoadOf(intakes[c]) + Load(intakes - {c})
    decreases |intakes|
  {
    var d :| d in intakes && Load(intakes) == LoadOf(intakes[d]) + Load(intakes - {d});
    if d != c {
      LoadSplits(intakes - {d}, c);
      LoadSplits(intakes - {c}, d);
      assert intakes - {d} - {c} == intakes - {c} - {d};
    }
  }

  lemma LoadShrinks(intakes: map<string, Intake>, c: string, intake: Intake)
    requires c in intakes && LoadOf(intake) < LoadOf(intakes[c])
    ensures Load(intakes[c := intake]) < Load(intakes)
  {
    LoadSplits(intakes, c);
    LoadSplits(intakes[c := intake], c);
    assert intakes[c := intake] - {c} == intakes - {c};
  }

  /** No reconcile fails for its own sake. */
  ghost predicate Smooth(sys: A.System) {
    D.AllOfOneKind(sys) && D.WithdrawalsCovered(sys)
  }

  lemma TurnSucceeds(cfg: A.Config, q: Queued, c: string)
    requires Sound(cfg, q) && Smooth(Seen(q)) && c in q.intakes && q.intakes[c].queue.fifo != []
    ensures Enabled(cfg, q, Turn(c, A.NO_FAULTS)) && TurnEffect(cfg, q, c, A.NO_FAULTS).verdict.Reconciled?
  {
    var queue := q.intakes[c].queue;
    var at := A.At(c, queue.fifo[0]);
    assert queue.fifo[0] in queue.fifo && Waits(q, at) && at in Waiting(q);
    D.FaultFreeSucceedsExactly(cfg, Seen(q), at);
    assert A.EffectOf(cfg, Seen(q), at, A.NO_FAULTS) == TurnEffect(cfg, q, c, A.NO_FAULTS);
  }

  lemma QuietStepDecreases(cfg: A.Config, q: Queued, step: Step)
    requires Sound(cfg, q) && Smooth(Seen(q)) && Enabled(cfg, q, step) && Quiet(step)
    ensures Load(Next(cfg, q, step).intakes) < Load(q.intakes)
  {
    match step {
      case Deliver(c) =>
        var Intake(inflight, queue) := q.intakes[c];
        C.QueueWeights(queue, inflight[0]);
        LoadShrinks(q.intakes, c, Intake(inflight[1..], queue.Add(inflight[0])));
      case Fire(c, k) =>
        var intake := q.intakes[c];
        C.QueueWeights(intake.queue, k);
        LoadShrinks(q.intakes, c, intake.(queue := intake.queue.Fire(k)));
      case Turn(c, _) =>
        var intake := q.intakes[c];
        TurnSucceeds(cfg, q, c);
        C.QueueWeights(intake.queue, intake.queue.fifo[0]);
        LoadShrinks(q.intakes, c, intake.(queue := TurnQueue(intake.queue, true)));
    }
  }

  lemma TurnStaysCovered(cfg: A.Config, sys: A.System, at: A.At, pending: set<A.At>)
    requires CollisionFree(cfg.keys) && A.Inv(cfg, sys) && D.WithdrawalsCovered(sys) && at in sys.pending
    requires A.Enabled(cfg, sys, A.Reconcile(at, A.NO_FAULTS))
             && A.EffectOf(cfg, sys, at, A.NO_FAULTS).verdict.Reconciled?
    requires pending <= sys.pending
    ensures D.WithdrawalsCovered(A.Next(cfg, sys, A.Reconcile(at, A.NO_FAULTS)).(pending := pending))
  {
    var after := A.Next(cfg, sys, A.Reconcile(at, A.NO_FAULTS));
    A.SuccessAgrees(cfg.selector, sys.store, sys.local, at.cluster, at.key, A.Cached(sys, at), A.NO_FAULTS);
    D.WithdrawalsCoveredStep(cfg, sys, at);
    assert after.pending == sys.pending - {at};
  }

  /** A turn is the reconcile of the first key, which may wait again already. */
  lemma TurnInSystem(cfg: A.Config, q: Queued, c: string)
    requires Sound(cfg, q) && Smooth(Seen(q)) && c in q.intakes
    requires q.intakes[c].queue.fifo != [] && Enabled(cfg, q, Turn(c, A.NO_FAULTS))
    ensures var sys, at, after := Seen(q), A.At(c, q.intakes[c].queue.fifo[0]), Next(cfg, q, Turn(c, A.NO_FAULTS));
            && at in sys.pending && A.Enabled(cfg, sys, A.Reconcile(at, A.NO_FAULTS))
            && A.EffectOf(cfg, sys, at, A.NO_FAULTS).verdict.Reconciled?
            && QueuesInv(cfg, after)
            && var reconciled := A.Next(cfg, sys, A.Reconcile(at, A.NO_FAULTS));
               && Seen(after) == reconciled.(pending := Waiting(after))
               && reconciled.pending <= Waiting(after) <= sys.pending
  {
    var sys, queue := Seen(q), q.intakes[c].queue;
    var at, after := A.At(c, queue.fifo[0]), Next(cfg, q, Turn(c, A.NO_FAULTS));
    assert queue.fifo[0] in queue.fifo && Waits(q, at) && at in Waiting(q);
    TurnSucceeds(cfg, q, c);
    assert A.EffectOf(cfg, sys, at, A.NO_FAULTS) == TurnEffect(cfg, q, c, A.NO_FAULTS);
    TurnMatches(cfg, q, sys, c, A.NO_FAULTS);
    QueuesInvStep(cfg, q, Turn(c, A.NO_FAULTS));
    TurnKeepsKeys(queue, true);
  }

  lemma TurnStaysSmooth(cfg: A.Config, q: Queued, c: string)
    requires CollisionFree(cfg.keys) && Sound(cfg, q) && Smooth(Seen(q)) && c in q.intakes
    requires q.intakes[c].queue.fifo != [] && Enabled(cfg, q, Turn(c, A.NO_FAULTS))
    ensures Sound(cfg, Next(cfg, q, Turn(c, A.NO_FAULTS))) && Smooth(Seen(Next(cfg, q, Turn(c, A.NO_FAULTS))))
  {
    var sys, at := Seen(q), A.At(c, q.intakes[c].queue.fifo[0]);
    var after := Next(cfg, q, Turn(c, A.NO_FAULTS));
    TurnInSystem(cfg, q, c);
    var reconciled := A.Next(cfg, sys, A.Reconcile(at, A.NO_FAULTS));
    assert Seen(after) == reconciled.(pending := Waiting(after));
    A.InvStep(cfg, sys, A.Reconcile(at, A.NO_FAULTS));
    D.HeldStep(cfg, sys, A.Reconcile(at, A.NO_FAULTS));
    MorePending(cfg, reconciled, Waiting(after));
    D.AllOfOneKindStep(cfg, sys, at);
    KindsIgnorePending(reconciled, Waiting(after));
    TurnStaysCovered(cfg, sys, at, Waiting(after));
  }

  lemma SmoothStep(cfg: A.Config, q: Queued, step: Step)
    requires CollisionFree(cfg.keys) && Sound(cfg, q) && Smooth(Seen(q)) && Enabled(cfg, q, step) && Quiet(step)
    ensures Sound(cfg, Next(cfg, q, step)) && Smooth(Seen(Next(cfg, q, step)))
  {
    if step.Turn? {
      TurnStaysSmooth(cfg, q, step.cluster);
    } else {
      MoveKeepsWaiting(cfg, q, step);
    }
  }

  lemma {:induction false} QuietRunsAreBounded(cfg: A.Config, q: Queued, run: seq<Step>)
    requires CollisionFree(cfg.keys) && Sound(cfg, q) && Smooth(Seen(q)) && ValidRun(cfg, q, run) && AllQuiet(run)
    ensures |run| + Load(Final(cfg, q, run).intakes) <= Load(q.intakes)
    ensures Sound(cfg, Final(cfg, q, run)) && Smooth(Seen(Final(cfg, q, run)))
    ensures Final(cfg, q, run).cache == q.cache && Final(cfg, q, run).seen == q.seen
    decreases |run|
  {
    if run != [] {
      assert run[0] in run && forall step :: step in run[1..] ==> step in run;
      QuietStepDecreases(cfg, q, run[0]);
      SmoothStep(cfg, q, run[0]);
      QuietRunsAreBounded(cfg, Next(cfg, q, run[0]), run[1..]);
    }
  }

  lemma QuietStepExists(cfg: A.Config, q: Queued)
    requires Sound(cfg, q) && Smooth(Seen(q))
    ensures (exists step :: Quiet(step) && Enabled(cfg, q, step)) <==> !AllQueuesEmpty(q)
  {
    NothingWaitsWhenEmpty(cfg, q);
    if !AllQueuesEmpty(q) {
      var at :| at in Waiting(q);
      var Intake(inflight, queue) := q.intakes[at.cluster];
      var step: Step;
      if inflight != [] {
        step := Deliver(at.cluster);
      } else if at.key in queue.delayed {
        step := Fire(at.cluster, at.key);
      } else {
        assert at.key in queue.fifo;
        TurnSucceeds(cfg, q, at.cluster);
        step := Turn(at.cluster, A.NO_FAULTS);
      }
      assert Quiet(step) && Enabled(cfg, q, step);
    }
  }

  /** From every state that the runners reach in which the kinds of each key agree and withdrawals find
      their local services: without further cache changes and faults no run is longer than the load, no
      turn fails or crashes, a run that cannot be continued has emptied all queues, and then a global
      service exists exactly when some cluster has the service. */
  lemma QueuesConverge(cfg: A.Config, start: Queued, before: seq<Step>, run: seq<Step>)
    requires CollisionFree(cfg.keys) && Initial(cfg, start) && ValidRun(cfg, start, before)
    requires Smooth(Seen(Final(cfg, start, before)))
    requires ValidRun(cfg, Final(cfg, start, before), run) && AllQuiet(run)
    ensures var mid := Final(cfg, start, before);
            var end := Final(cfg, mid, run);
            && |run| <= Load(mid.intakes)
            && ((forall step :: Quiet(step) ==> !Enabled(cfg, end, step)) <==> AllQueuesEmpty(end))
            && (forall c :: c in end.intakes && end.intakes[c].queue.fifo != [] ==>
                  TurnEffect(cfg, end, c, A.NO_FAULTS).verdict.Reconciled?)
            && (AllQueuesEmpty(end) ==> forall at :: at in mid.seen ==>
                  (GlobalName(at.key) in end.local <==> A.CachedSomewhere(Shadow(mid, {}), at.key)))
  {
    SoundRun(cfg, start, before);
    var mid := Final(cfg, start, before);
    QuietRunsAreBounded(cfg, mid, run);
    var end := Final(cfg, mid, run);
    QuietStepExists(cfg, end);
    forall c | c in end.intakes && end.intakes[c].queue.fifo != []
      ensures TurnEffect(cfg, end, c, A.NO_FAULTS).verdict.Reconciled?
    {
      TurnSucceeds(cfg, end, c);
    }
    if AllQueuesEmpty(end) {
      NothingWaitsWhenEmpty(cfg, end);
      forall at | at in mid.seen
        ensures GlobalName(at.key) in end.local <==> A.CachedSomewhere(Shadow(mid, {}), at.key)
      {
        A.AtRest(cfg, Seen(end), at);
      }
    }
  }
}
