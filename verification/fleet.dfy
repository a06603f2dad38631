/** Several runners of one kind writing into the same local namespace, and what keeps them apart. */
module Fleets {
  import opened Wrappers
  import opened Controller

  /** The runners by cluster name, and the local objects they share. */
  datatype Fleet<V, L> = Fleet(runners: map<string, Runner<V, L>>, local: map<string, L>)

  type Kinds<!V(!new), !L(!new)> = map<string, Kind<V, L>>

  datatype Event<V, L> = By(runner: string, action: Action<V, L>) | Outside(name: string, obj: Option<L>)

  /** No two runners own the same name or select the same object, and what the outside may write is
      selected by none. */
  ghost predicate Apart<V(!new), L(!new)>(kinds: Kinds<V, L>, alien: L -> bool) {
    && (forall c :: c in kinds ==> Lawful(kinds[c]))
    && (forall c, d, n :: c in kinds && d in kinds && c != d && kinds[c].owns(n) ==> !kinds[d].owns(n))
    && (forall c, d, l :: c in kinds && d in kinds && c != d && kinds[c].labelled(l) ==> !kinds[d].labelled(l))
    && (forall c, l :: c in kinds && alien(l) ==> !kinds[c].labelled(l))
  }

  function View<V, L>(f: Fleet<V, L>, c: string): State<V, L>
    requires c in f.runners
  {
    State(f.runners[c], f.local)
  }

  ghost predicate Enabled<V(!new), L(!new)>(kinds: Kinds<V, L>, alien: L -> bool, f: Fleet<V, L>, e: Event<V, L>) {
    match e
    case By(c, a) => c in kinds && c in f.runners && !a.External? && Controller.Enabled(kinds[c], View(f, c), a)
    case Outside(n, obj) => (forall c :: c in kinds ==> !kinds[c].owns(n)) && (obj.Some? ==> alien(obj.value))
  }

  ghost function Next<V(!new), L(!new)>(kinds: Kinds<V, L>, alien: L -> bool, f: Fleet<V, L>,
                                        e: Event<V, L>): Fleet<V, L>
    requires Enabled(kinds, alien, f, e)
  {
    match e
    case By(c, a) =>
      var after := Controller.Next(kinds[c], View(f, c), a);
      Fleet(f.runners[c := after.r], after.local)
    case Outside(n, obj) =>
      f.(local := if obj.Some? then f.local[n := obj.value] else f.local - {n})
  }

  ghost predicate ValidRun<V(!new), L(!new)>(kinds: Kinds<V, L>, alien: L -> bool, f: Fleet<V, L>,
                                             run: seq<Event<V, L>>)
    decreases |run|
  {
    run != [] ==> Enabled(kinds, alien, f, run[0]) && ValidRun(kinds, alien, Next(kinds, alien, f, run[0]), run[1..])
  }

  ghost function Final<V(!new), L(!new)>(kinds: Kinds<V, L>, alien: L -> bool, f: Fleet<V, L>,
                                         run: seq<Event<V, L>>): Fleet<V, L>
    requires ValidRun(kinds, alien, f, run)
    decreases |run|
  {
    if run == [] then f else Final(kinds, alien, Next(kinds, alien, f, run[0]), run[1..])
  }

  /** Every local object is some runner's or the outside's. */
  ghost predicate Attributed<V(!new), L(!new)>(kinds: Kinds<V, L>, alien: L -> bool, f: Fleet<V, L>) {
    forall n :: n in f.local ==> alien(f.local[n]) || exists c :: c in kinds && kinds[c].labelled(f.local[n])
  }

  ghost predicate Initial<V(!new), L(!new)>(kinds: Kinds<V, L>, alien: L -> bool, f: Fleet<V, L>) {
    && f.runners.Keys == kinds.Keys
    && (forall c :: c in kinds ==> Controller.Initial(kinds[c], View(f, c)))
    && Attributed(kinds, alien, f)
  }

  ghost predicate FleetInv<V(!new), L(!new)>(kinds: Kinds<V, L>, alien: L -> bool, f: Fleet<V, L>) {
    && f.runners.Keys == kinds.Keys
    && (forall c :: c in kinds ==> Controller.Inv(kinds[c], View(f, c)))
    && Attributed(kinds, alien, f)
  }

  /** No step of one runner, its sync included, creates, changes or deletes an object under a name of
      another runner. */
  lemma RunnersStayApart<V(!new), L(!new)>(kinds: Kinds<V, L>, alien: L -> bool, f: Fleet<V, L>, e: Event<V, L>,
                                           d: string, n: string)
    requires Apart(kinds, alien) && FleetInv(kinds, alien, f) && Enabled(kinds, alien, f, e)
    requires d in kinds && kinds[d].owns(n) && (e.By? ==> e.runner != d)
    ensures var after := Next(kinds, alien, f, e);
            (n in after.local <==> n in f.local) && (n in f.local ==> after.local[n] == f.local[n])
  {
    if e.By? {
      StepStaysInOwnNames(kinds[e.runner], View(f, e.runner), e.action, n);
    }
  }

  /** Changes that keep to foreign names and foreign labels do not disturb a runner's invariant. */
  lemma UndisturbedInv<V(!new), L(!new)>(kind: Kind<V, L>, r: Runner<V, L>, before: map<string, L>,
                                         after: map<string, L>)
    requires Lawful(kind) && Controller.Inv(kind, State(r, before))
    requires forall n :: kind.owns(n) ==> (n in after <==> n in before) && (n in before ==> after[n] == before[n])
    requires forall n :: n in after && !kind.owns(n) ==> !kind.labelled(after[n])
    ensures Controller.Inv(kind, State(r, after))
  {
  }

  lemma ForeignLabels<V(!new), L(!new)>(kinds: Kinds<V, L>, alien: L -> bool, f: Fleet<V, L>, e: Event<V, L>, d: string,
                                        n: string)
    requires Apart(kinds, alien) && FleetInv(kinds, alien, f) && Enabled(kinds, alien, f, e)
    requires d in kinds && (e.By? ==> e.runner != d)
    requires n in Next(kinds, alien, f, e).local && !kinds[d].owns(n)
    ensures !kinds[d].labelled(Next(kinds, alien, f, e).local[n])
  {
    assert LabelsMatchNames(kinds[d], View(f, d).local);
    if e.By? {
      StepStaysInOwnNames(kinds[e.runner], View(f, e.runner), e.action, n);
    }
  }

  lemma NeighbourInvStep<V(!new), L(!new)>(kinds: Kinds<V, L>, alien: L -> bool, f: Fleet<V, L>, e: Event<V, L>,
                                           d: string)
    requires Apart(kinds, alien) && FleetInv(kinds, alien, f) && Enabled(kinds, alien, f, e)
    requires d in kinds && (e.By? ==> e.runner != d)
    ensures Controller.Inv(kinds[d], State(f.runners[d], Next(kinds, alien, f, e).local))
  {
    var after := Next(kinds, alien, f, e);
    forall n | kinds[d].owns(n)
      ensures (n in after.local <==> n in f.local) && (n in f.local ==> after.local[n] == f.local[n])
    {
      RunnersStayApart(kinds, alien, f, e, d, n);
    }
    forall n | n in after.local && !kinds[d].owns(n) ensures !kinds[d].labelled(after.local[n]) {
      ForeignLabels(kinds, alien, f, e, d, n);
    }
    assert Controller.Inv(kinds[d], View(f, d));
    UndisturbedInv(kinds[d], f.runners[d], f.local, after.local);
  }

  lemma RunnerInvStep<V(!new), L(!new)>(kinds: Kinds<V, L>, alien: L -> bool, f: Fleet<V, L>, e: Event<V, L>, d: string)
    requires Apart(kinds, alien) && FleetInv(kinds, alien, f) && Enabled(kinds, alien, f, e) && d in kinds
    ensures d in Next(kinds, alien, f, e).runners && Controller.Inv(kinds[d], View(Next(kinds, alien, f, e), d))
  {
    if e.By? && e.runner == d {
      InvStep(kinds[d], View(f, d), e.action);
    } else {
      NeighbourInvStep(kinds, alien, f, e, d);
      var after := Next(kinds, alien, f, e);
      assert after.runners[d] == f.runners[d];
      assert View(after, d) == State(f.runners[d], after.local);
    }
  }

  lemma AttributedStep<V(!new), L(!new)>(kinds: Kinds<V, L>, alien: L -> bool, f: Fleet<V, L>, e: Event<V, L>)
    requires Apart(kinds, alien) && FleetInv(kinds, alien, f) && Enabled(kinds, alien, f, e)
    ensures Attributed(kinds, alien, Next(kinds, alien, f, e))
  {
    var after := Next(kinds, alien, f, e);
    forall n | n in after.local
      ensures alien(after.local[n]) || exists c :: c in kinds && kinds[c].labelled(after.local[n])
    {
      if e.By? {
        StepStaysInOwnNames(kinds[e.runner], View(f, e.runner), e.action, n);
      }
    }
  }

  lemma FleetInvStep<V(!new), L(!new)>(kinds: Kinds<V, L>, alien: L -> bool, f: Fleet<V, L>, e: Event<V, L>)
    requires Apart(kinds, alien) && FleetInv(kinds, alien, f) && Enabled(kinds, alien, f, e)
    ensures FleetInv(kinds, alien, Next(kinds, alien, f, e))
  {
    forall d | d in kinds
      ensures d in Next(kinds, alien, f, e).runners && Controller.Inv(kinds[d], View(Next(kinds, alien, f, e), d))
    {
      RunnerInvStep(kinds, alien, f, e, d);
    }
    AttributedStep(kinds, alien, f, e);
  }

  lemma {:induction false} FleetInvRun<V(!new), L(!new)>(kinds: Kinds<V, L>, alien: L -> bool, f: Fleet<V, L>,
                                                         run: seq<Event<V, L>>)
    requires Apart(kinds, alien) && FleetInv(kinds, alien, f) && ValidRun(kinds, alien, f, run)
    ensures FleetInv(kinds, alien, Final(kinds, alien, f, run))
    decreases |run|
  {
    if run != [] {
      FleetInvStep(kinds, alien, f, run[0]);
      FleetInvRun(kinds, alien, Next(kinds, alien, f, run[0]), run[1..]);
    }
  }

  lemma ReachableInv<V(!new), L(!new)>(kinds: Kinds<V, L>, alien: L -> bool, f: Fleet<V, L>, run: seq<Event<V, L>>)
    requires Apart(kinds, alien) && Initial(kinds, alien, f) && ValidRun(kinds, alien, f, run)
    ensures FleetInv(kinds, alien, Final(kinds, alien, f, run))
  {
    forall c | c in kinds ensures Controller.Inv(kinds[c], View(f, c)) {
      InitialInv(kinds[c], View(f, c));
    }
    FleetInvRun(kinds, alien, f, run);
  }

  /** Over every run of all runners together, after every step: no runner's update is lost, and the
      next step of any one of them leaves the others' names alone. */
  lemma FleetIsolation<V(!new), L(!new)>(kinds: Kinds<V, L>, alien: L -> bool, f: Fleet<V, L>, run: seq<Event<V, L>>,
                                         e: Event<V, L>, d: string, n: string)
    requires Apart(kinds, alien) && Initial(kinds, alien, f) && ValidRun(kinds, alien, f, run)
    requires d in kinds
    ensures var end := Final(kinds, alien, f, run);
            && d in end.runners
            && (forall k :: k in end.runners[d].seen ==>
                Pending(end.runners[d], k) || Controller.Settled(kinds[d], View(end, d), k))
            && (Enabled(kinds, alien, end, e) && kinds[d].owns(n) && (e.By? ==> e.runner != d) ==>
                  var after := Next(kinds, alien, end, e);
                  (n in after.local <==> n in end.local) && (n in end.local ==> after.local[n] == end.local[n]))
  {
    ReachableInv(kinds, alien, f, run);
    var end := Final(kinds, alien, f, run);
    if Enabled(kinds, alien, end, e) && kinds[d].owns(n) && (e.By? ==> e.runner != d) {
      RunnersStayApart(kinds, alien, end, e, d, n);
    }
  }

  /** A runner that started with nothing left over stays tidy. */
  lemma {:induction false} TidyStays<V(!new), L(!new)>(kinds: Kinds<V, L>, alien: L -> bool, f: Fleet<V, L>,
                                                       run: seq<Event<V, L>>, c: string)
    requires ValidRun(kinds, alien, f, run) && c in f.runners && f.runners[c].tidy
    ensures c in Final(kinds, alien, f, run).runners && Final(kinds, alien, f, run).runners[c].tidy
    decreases |run|
  {
    if run != [] {
      TidyStays(kinds, alien, Next(kinds, alien, f, run[0]), run[1..], c);
    }
  }

  // --- Coming to rest -----------------------------------------------------------------------------------

  function Alone<V, L>(c: string, run: seq<Action<V, L>>): seq<Event<V, L>> {
    seq(|run|, i requires 0 <= i < |run| => By(c, run[i]))
  }

  /** Whatever one runner can do by itself it can do in the fleet, the others standing by. */
  lemma {:induction false} RunsAlone<V(!new), L(!new)>(kinds: Kinds<V, L>, alien: L -> bool, f: Fleet<V, L>, c: string,
                                                       run: seq<Action<V, L>>)
    requires c in kinds && c in f.runners && Controller.ValidRun(kinds[c], View(f, c), run)
    requires forall a :: a in run ==> !a.External?
    ensures ValidRun(kinds, alien, f, Alone(c, run))
    ensures var end := Controller.Final(kinds[c], View(f, c), run);
            Final(kinds, alien, f, Alone(c, run)) == Fleet(f.runners[c := end.r], end.local)
    decreases |run|
  {
    if run == [] {
      assert f.runners[c := f.runners[c]] == f.runners;
    } else {
      assert run[0] in run && forall a :: a in run[1..] ==> a in run;
      var after := Next(kinds, alien, f, By(c, run[0]));
      assert Alone(c, run)[0] == By(c, run[0]) && Alone(c, run)[1..] == Alone(c, run[1..]);
      RunsAlone(kinds, alien, after, c, run[1..]);
      var end := Controller.Final(kinds[c], View(f, c), run);
      assert after.runners[c := end.r] == f.runners[c := end.r];
    }
  }

  lemma {:induction false} Concatenate<V(!new), L(!new)>(kinds: Kinds<V, L>, alien: L -> bool, f: Fleet<V, L>,
                                                         run1: seq<Event<V, L>>, run2: seq<Event<V, L>>)
    requires ValidRun(kinds, alien, f, run1) && ValidRun(kinds, alien, Final(kinds, alien, f, run1), run2)
    ensures ValidRun(kinds, alien, f, run1 + run2)
    ensures Final(kinds, alien, f, run1 + run2) == Final(kinds, alien, Final(kinds, alien, f, run1), run2)
    decreases |run1|
  {
    if run1 == [] {
      assert run1 + run2 == run2;
    } else {
      Concatenate(kinds, alien, Next(kinds, alien, f, run1[0]), run1[1..], run2);
      assert (run1 + run2)[0] == run1[0] && (run1 + run2)[1..] == run1[1..] + run2;
    }
  }

  ghost predicate AllAcceptable<V(!new), L(!new)>(kinds: Kinds<V, L>, f: Fleet<V, L>)
    requires f.runners.Keys <= kinds.Keys
  {
    forall c :: c in f.runners ==> AllValid(kinds[c], f.runners[c].remote)
  }

  lemma OneDrains<V(!new), L(!new)>(kinds: Kinds<V, L>, alien: L -> bool, f: Fleet<V, L>, c: string)
      returns (run: seq<Event<V, L>>)
    requires Apart(kinds, alien) && FleetInv(kinds, alien, f) && c in f.runners
    requires AllValid(kinds[c], f.runners[c].remote)
    ensures ValidRun(kinds, alien, f, run) && FleetInv(kinds, alien, Final(kinds, alien, f, run))
    ensures var end := Final(kinds, alien, f, run);
            && c in end.runners && end.runners == f.runners[c := end.runners[c]]
            && Quiescent(end.runners[c]) && end.runners[c].remote == f.runners[c].remote
  {
    var alone := DrainExists(kinds[c], View(f, c));
    QuietRunKeepsCache(kinds[c], View(f, c), alone);
    forall a | a in alone ensures !a.External? {
      assert Quiet(a);
    }
    RunsAlone(kinds, alien, f, c, alone);
    run := Alone(c, alone);
    FleetInvRun(kinds, alien, f, run);
  }

  lemma OneFewerBusy<V(!new), L(!new)>(kinds: Kinds<V, L>, f: Fleet<V, L>, mid: Fleet<V, L>, busy: set<string>,
                                       c: string)
    requires f.runners.Keys <= kinds.Keys && AllAcceptable(kinds, f) && c in f.runners && c in mid.runners
    requires mid.runners == f.runners[c := mid.runners[c]] && mid.runners[c].remote == f.runners[c].remote
    requires Quiescent(mid.runners[c]) && forall d :: d in f.runners && d !in busy ==> Quiescent(f.runners[d])
    ensures mid.runners.Keys == f.runners.Keys && AllAcceptable(kinds, mid)
    ensures forall d :: d in f.runners ==> mid.runners[d].remote == f.runners[d].remote
    ensures forall d :: d in mid.runners && d !in busy - {c} ==> Quiescent(mid.runners[d])
  {
    forall d | d in mid.runners ensures AllValid(kinds[d], mid.runners[d].remote) {
      assert AllValid(kinds[d], f.runners[d].remote);
    }
  }

  /** From every state of the invariant in which all cached objects are acceptable, quiet steps of the
      runners, one after the other, bring all of them to rest with unchanged caches. */
  lemma {:induction false} FleetDrains<V(!new), L(!new)>(kinds: Kinds<V, L>, alien: L -> bool, f: Fleet<V, L>,
                                                         busy: set<string>)
      returns (run: seq<Event<V, L>>)
    requires Apart(kinds, alien) && FleetInv(kinds, alien, f) && AllAcceptable(kinds, f)
    requires busy <= f.runners.Keys && forall c :: c in f.runners && c !in busy ==> Quiescent(f.runners[c])
    ensures ValidRun(kinds, alien, f, run)
    ensures var end := Final(kinds, alien, f, run);
            && end.runners.Keys == f.runners.Keys
            && forall c :: c in f.runners ==> Quiescent(end.runners[c]) && end.runners[c].remote == f.runners[c].remote
    decreases busy
  {
    if busy == {} {
      return [];
    }
    var c :| c in busy;
    var first := OneDrains(kinds, alien, f, c);
    var mid := Final(kinds, alien, f, first);
    OneFewerBusy(kinds, f, mid, busy, c);
    var rest := FleetDrains(kinds, alien, mid, busy - {c});
    Concatenate(kinds, alien, f, first, rest);
    run := first + rest;
  }
}
