/** The deduplicating, rate-limited work queue and the bookkeeping of failing keys (queue.go).
    The queue itself follows the documented rules of client-go's workqueue package. */
module WorkQueue {
  import opened Wrappers
  import opened Naming
  import opened Lists

  // --- The work queue -----------------------------------------------------------------------

  datatype WorkQueue<K(==,!new)> = WorkQueue(dirty: set<K>, fifo: seq<K>, processing: set<K>, delayed: set<K>)
  {
    /** A key already waiting is not queued twice; a key being processed is only marked. */
    function Add(key: K): WorkQueue<K> {
      if key in dirty then this
      else if key in processing then this.(dirty := dirty + {key})
      else this.(dirty := dirty + {key}, fifo := fifo + [key])
    }

    function Get(): WorkQueue<K>
      requires fifo != []
    {
      this.(dirty := dirty - {fifo[0]}, fifo := fifo[1..], processing := processing + {fifo[0]})
    }

    function Done(key: K): WorkQueue<K> {
      this.(processing := processing - {key}, fifo := if key in dirty then fifo + [key] else fifo)
    }

    function AddRateLimited(key: K): WorkQueue<K> {
      this.(delayed := delayed + {key})
    }

    function Fire(key: K): WorkQueue<K> {
      this.(delayed := delayed - {key}).Add(key)
    }

    function AddEach(keys: seq<K>): WorkQueue<K>
      decreases |keys|
    {
      if keys == [] then this else Add(keys[0]).AddEach(keys[1..])
    }

    /** One turn of the worker with its first key: arrivals are added while it is processed, then it is
        requeued or not, and done. */
    function Turn(arrivals: seq<K>, ok: bool): WorkQueue<K>
      requires fifo != []
    {
      var arrived := Get().AddEach(arrivals);
      (if ok then arrived else arrived.AddRateLimited(fifo[0])).Done(fifo[0])
    }

    /** The FIFO holds, once each, the dirty keys that are not being processed. */
    ghost predicate Valid() {
      && NoDups(fifo)
      && forall k :: k in fifo <==> k in dirty && k !in processing
    }

    predicate Holds(key: K) {
      key in dirty || key in processing || key in delayed
    }
  }

  const EMPTY_QUEUE: WorkQueue<string> := WorkQueue({}, [], {}, {})

  /** Every operation keeps the queue valid, and a key leaves the queue only when its processing
      ends without having been marked again. */
  lemma OperationsKeepKeys<K(!new)>(q: WorkQueue<K>, key: K)
    requires q.Valid()
    ensures q.Add(key).Valid() && forall k :: q.Add(key).Holds(k) <==> q.Holds(k) || k == key
    ensures q.AddRateLimited(key).Valid() && forall k :: q.AddRateLimited(key).Holds(k) <==> q.Holds(k) || k == key
    ensures q.Fire(key).Valid() && forall k :: q.Fire(key).Holds(k) <==> q.Holds(k) || k == key
    ensures q.fifo != [] ==> q.Get().Valid() && q.fifo[0] !in q.processing && forall k :: q.Get().Holds(k) <==>
              q.Holds(k)
    ensures key in q.processing ==> q.Done(key).Valid()
    ensures forall k :: q.Done(key).Holds(k) <==> q.Holds(k) && (k == key ==> k in q.dirty || k in q.delayed)
  {
  }

  /** Keys that are not there yet, once each and in the order of their first arrival. */
  function FirstNew<K(==)>(there: set<K>, arrivals: seq<K>): seq<K>
    decreases |arrivals|
  {
    if arrivals == [] then []
    else if arrivals[0] in there then FirstNew(there, arrivals[1..])
    else [arrivals[0]] + FirstNew(there + {arrivals[0]}, arrivals[1..])
  }

  /** A later arrival comes last, unless it is there or arrived before. */
  lemma {:induction false} FirstNewInOrder<K(!new)>(there: set<K>, arrivals: seq<K>, key: K)
    ensures FirstNew(there, arrivals + [key]) ==
            FirstNew(there, arrivals) + (if key in there || key in arrivals then [] else [key])
    decreases |arrivals|
  {
    if arrivals != [] {
      assert (arrivals + [key])[1..] == arrivals[1..] + [key];
      FirstNewInOrder(if arrivals[0] in there then there else there + {arrivals[0]}, arrivals[1..], key);
    }
  }

  lemma AddOneExact<K(!new)>(q: WorkQueue<K>, key: K)
    requires q.Valid()
    ensures var after, there := q.Add(key), q.dirty + q.processing;
            && after.Valid() && after.processing == q.processing && after.delayed == q.delayed
            && after.dirty == q.dirty + {key}
            && after.fifo == q.fifo + (if key in there then [] else [key])
            && after.dirty + after.processing == (if key in there then there else there + {key})
  {
    OperationsKeepKeys(q, key);
  }

  lemma {:induction false} AddEachExact<K(!new)>(q: WorkQueue<K>, keys: seq<K>)
    requires q.Valid()
    ensures var after := q.AddEach(keys);
            && after.Valid() && after.processing == q.processing && after.delayed == q.delayed
            && after.dirty == q.dirty + Elements(keys)
            && after.fifo == q.fifo + FirstNew(q.dirty + q.processing, keys)
    decreases |keys|
  {
    if keys == [] {
      assert q.dirty + Elements(keys) == q.dirty;
    } else {
      AddOneExact(q, keys[0]);
      AddEachExact(q.Add(keys[0]), keys[1..]);
      assert Elements(keys) == {keys[0]} + Elements(keys[1..]);
      assert q.dirty + Elements(keys) == q.Add(keys[0]).dirty + Elements(keys[1..]);
    }
  }

  lemma GetExact<K(!new)>(q: WorkQueue<K>)
    requires q.Valid() && q.fifo != [] && q.processing == {}
    ensures var key, got := q.fifo[0], q.Get();
            && got.Valid() && got.fifo == q.fifo[1..] && got.processing == {key} && got.delayed == q.delayed
            && got.dirty == q.dirty - {key} && got.dirty + got.processing == Elements(q.fifo)
  {
    OperationsKeepKeys(q, q.fifo[0]);
    assert q.fifo[0] in q.fifo;
  }

  lemma EndExact<K(!new)>(q: WorkQueue<K>, key: K, ok: bool)
    requires q.Valid() && q.processing == {key}
    ensures var after := (if ok then q else q.AddRateLimited(key)).Done(key);
            && after.Valid() && after.processing == {}
            && after.delayed == q.delayed + (if ok then {} else {key}) && after.dirty == q.dirty
            && after.fifo == q.fifo + (if key in q.dirty then [key] else [])
  {
    OperationsKeepKeys(q, key);
    OperationsKeepKeys(q.AddRateLimited(key), key);
  }

  /** What a turn does to the queue: the other keys are held that were held or arrived; its own key stays
      exactly if it failed, arrived meanwhile or was delayed already; only a failed one is delayed; and
      new arrivals queue up in order, its own key after them. */
  lemma TurnExact<K(!new)>(q: WorkQueue<K>, arrivals: seq<K>, ok: bool)
    requires q.Valid() && q.fifo != [] && q.processing == {}
    ensures var after, key := q.Turn(arrivals, ok), q.fifo[0];
            && after.Valid() && after.processing == {}
            && after.delayed == q.delayed + (if ok then {} else {key})
            && after.dirty == (q.dirty - {key}) + Elements(arrivals)
            && after.fifo == q.fifo[1..] + FirstNew(Elements(q.fifo), arrivals) + (if key in arrivals then [key]
                else [])
            && (forall k :: k != key ==> (after.Holds(k) <==> q.Holds(k) || k in arrivals))
            && (after.Holds(key) <==> !ok || key in arrivals || key in q.delayed)
  {
    var key, got := q.fifo[0], q.Get();
    OperationsKeepKeys(q, key);
    GetExact(q);
    AddEachExact(got, arrivals);
    var arrived := got.AddEach(arrivals);
    EndExact(arrived, key, ok);
  }

  // --- Keys ---------------------------------------------------------------------------------

  function MetaNamespaceKey(key: Key): string {
    if key.namespace == "" then key.name else key.namespace + ['/'] + key.name
  }

  function SplitMetaNamespaceKey(s: string): Option<Key> {
    var parts := Split(s, '/');
    if |parts| == 1 then Some(Key("", parts[0]))
    else if |parts| == 2 then Some(Key(parts[0], parts[1]))
    else None
  }

  /** The queue key of an object decodes to that object exactly when neither part holds a
      slash, which no Kubernetes name does; so the error path of processItem is never taken
      for keys the event handlers queued. */
  lemma QueueKeyRoundTrip(key: Key)
    ensures SplitMetaNamespaceKey(MetaNamespaceKey(key)) == Some(key) <==> '/' !in key.namespace && '/' !in key.name
    ensures '/' in MetaNamespaceKey(key) <==> key.namespace != "" || '/' in key.name
  {
    if '/' !in key.namespace && '/' !in key.name {
      SplitWithoutSeparator(key.name, '/');
      SplitAtFirstSeparator(key.namespace, key.name, '/');
    }
  }

  /** What the worker makes of any queue key: with two slashes an error, otherwise what stands before and
      after the slash. */
  lemma QueueKeyDecodes(s: string)
    ensures SplitMetaNamespaceKey(s).None? <==> exists i, j :: 0 <= i < j < |s| && s[i] == '/' && s[j] == '/'
    ensures SplitMetaNamespaceKey(s).Some? ==>
              var k := SplitMetaNamespaceKey(s).value;
              && '/' !in k.namespace && '/' !in k.name
              && if '/' in s then s == k.namespace + "/" + k.name else k == Key("", s)
  {
    PartsCountSeparators(s, '/');
    JoinSplit(s, '/');
    if '/' !in s {
      SplitWithoutSeparator(s, '/');
    }
  }

  // --- Which keys are reported as failing -----------------------------------------------------

  function WithRequeued<K(==)>(requeued: seq<K>, key: K): seq<K> {
    if key in requeued then requeued else requeued + [key]
  }

  /** Only the first match goes. */
  function WithoutRequeued<K(==)>(requeued: seq<K>, key: K): seq<K> {
    if requeued == [] then []
    else if requeued[0] == key then requeued[1..]
    else [requeued[0]] + WithoutRequeued(requeued[1..], key)
  }

  lemma {:induction false} WithoutRequeuedAt<K>(requeued: seq<K>, key: K, i: nat)
    requires i < |requeued| && requeued[i] == key && key !in requeued[..i]
    ensures WithoutRequeued(requeued, key) == requeued[..i] + requeued[i + 1..]
    decreases i
  {
    if i > 0 {
      assert requeued[0] in requeued[..i];
      assert requeued[1..][..i - 1] == requeued[..i][1..];
      WithoutRequeuedAt(requeued[1..], key, i - 1);
      assert requeued[..i] == [requeued[0]] + requeued[1..][..i - 1];
      assert requeued[1..][i..] == requeued[i + 1..];
    }
  }

  lemma {:induction false} WithoutRequeuedAbsent<K>(requeued: seq<K>, key: K)
    requires key !in requeued
    ensures WithoutRequeued(requeued, key) == requeued
  {
    if requeued != [] {
      WithoutRequeuedAbsent(requeued[1..], key);
    }
  }

  datatype Outcome<K> = Outcome(key: K, ok: bool)

  function Record<K(==)>(requeued: seq<K>, outcome: Outcome<K>): seq<K> {
    if outcome.ok then WithoutRequeued(requeued, outcome.key) else WithRequeued(requeued, outcome.key)
  }

  /** The list after processing a sequence of keys. */
  function RequeuedAfter<K(==)>(outcomes: seq<Outcome<K>>): seq<K> {
    if outcomes == [] then []
    else Record(RequeuedAfter(outcomes[..|outcomes| - 1]), outcomes[|outcomes| - 1])
  }

  predicate LatestFailed<K(==)>(outcomes: seq<Outcome<K>>, key: K) {
    outcomes != [] &&
    var last := outcomes[|outcomes| - 1];
    if last.key == key then !last.ok else LatestFailed(outcomes[..|outcomes| - 1], key)
  }

  lemma {:induction false} WithoutRequeuedElements<K(!new)>(requeued: seq<K>, key: K)
    requires NoDups(requeued)
    ensures NoDups(WithoutRequeued(requeued, key))
    ensures forall k :: k in WithoutRequeued(requeued, key) <==> k in requeued && k != key
  {
    if requeued != [] {
      var head, tail := requeued[0], requeued[1..];
      assert requeued == [head] + tail;
      assert forall k :: k in requeued <==> k == head || k in tail;
      assert forall j :: 0 <= j < |tail| ==> tail[j] == requeued[j + 1];
      assert head !in tail;
      WithoutRequeuedElements(tail, key);
    }
  }

  /** The list has no duplicates and holds exactly the keys whose latest processing failed. */
  lemma {:induction false} RequeuedExact<K(!new)>(outcomes: seq<Outcome<K>>)
    ensures NoDups(RequeuedAfter(outcomes))
    ensures forall k :: k in RequeuedAfter(outcomes) <==> LatestFailed(outcomes, k)
  {
    if outcomes != [] {
      var earlier, last := outcomes[..|outcomes| - 1], outcomes[|outcomes| - 1];
      RequeuedExact(earlier);
      WithoutRequeuedElements(RequeuedAfter(earlier), last.key);
    }
  }

  ghost function FailingKeys<K(!new)>(outcomes: seq<Outcome<K>>): set<K> {
    set o | o in outcomes && LatestFailed(outcomes, o.key) :: o.key
  }

  lemma {:induction false} LatestFailedOccurs<K(!new)>(outcomes: seq<Outcome<K>>, key: K)
    requires LatestFailed(outcomes, key)
    ensures exists o :: o in outcomes && o.key == key
  {
    var earlier, last := outcomes[..|outcomes| - 1], outcomes[|outcomes| - 1];
    assert last in outcomes && forall o :: o in earlier ==> o in outcomes;
    if last.key != key {
      LatestFailedOccurs(earlier, key);
    }
  }

  /** The reported count is the number of keys that are failing. */
  lemma RequeuedCount<K(!new)>(outcomes: seq<Outcome<K>>)
    ensures |RequeuedAfter(outcomes)| == |FailingKeys(outcomes)|
  {
    RequeuedExact(outcomes);
    forall k | k in RequeuedAfter(outcomes) ensures k in FailingKeys(outcomes) {
      LatestFailedOccurs(outcomes, k);
    }
    assert Elements(RequeuedAfter(outcomes)) == FailingKeys(outcomes);
    NoDupsMultiset(RequeuedAfter(outcomes));
  }

  // --- The queue object -------------------------------------------------------------------------

  datatype EventType = Added | Modified | Deleted | Unknown

  function KeysOf(objs: seq<Key>): seq<string> {
    seq(|objs|, i requires 0 <= i < |objs| => MetaNamespaceKey(objs[i]))
  }

  class Queue {
    var queue: WorkQueue<string>
    var requeued: seq<string>
    ghost var outcomes: seq<Outcome<string>>

    ghost predicate Valid()
      reads this
    {
      queue.Valid() && requeued == RequeuedAfter(outcomes)
    }

    constructor ()
      ensures Valid() && queue == EMPTY_QUEUE && requeued == [] && outcomes == []
    {
      queue, requeued, outcomes := EMPTY_QUEUE, [], [];
    }

    method Add(obj: Key)
      requires Valid()
      modifies this`queue
      ensures Valid() && queue == old(queue).Add(MetaNamespaceKey(obj))
      ensures queue.Holds(MetaNamespaceKey(obj))
    {
      var key := MetaNamespaceKey(obj);
      OperationsKeepKeys(queue, key);
      queue := queue.Add(key);
    }

    /** What each of the four event handlers does with its queue: the watchers hand over the new object
        on additions and changes and the old one on deletions. */
    method HandleEvent(eventType: EventType, oldObj: Option<Key>, newObj: Option<Key>)
      requires Valid()
      requires eventType.Added? || eventType.Modified? ==> newObj.Some?
      requires eventType.Deleted? ==> oldObj.Some?
      modifies this`queue
      ensures Valid()
      ensures eventType.Added? || eventType.Modified? ==> queue == old(queue).Add(MetaNamespaceKey(newObj.value))
      ensures eventType.Deleted? ==> queue == old(queue).Add(MetaNamespaceKey(oldObj.value))
      ensures eventType.Unknown? ==> queue == old(queue)
    {
      match eventType
      case Added => Add(newObj.value);
      case Modified => Add(newObj.value);
      case Deleted => Add(oldObj.value);
      case Unknown =>
    }

    /** The events that are handled while a reconcile is under way. */
    method AddAll(objs: seq<Key>)
      requires Valid()
      modifies this`queue
      ensures Valid() && queue == old(queue).AddEach(KeysOf(objs))
    {
      for i := 0 to |objs|
        invariant Valid() && queue.AddEach(KeysOf(objs)[i..]) == old(queue).AddEach(KeysOf(objs))
      {
        assert KeysOf(objs)[i..][0] == MetaNamespaceKey(objs[i]);
        assert KeysOf(objs)[i..][1..] == KeysOf(objs)[i + 1..];
        Add(objs[i]);
      }
    }

    /** One turn of the worker. The result of the reconcile function and the objects whose events
        arrive while it runs are the caller's; Get blocks on an empty queue, so the caller
        calls only when there is a key to process. */
    method ProcessItem(reconciled: bool, arrivals: seq<Key>) returns (key: string)
      requires Valid() && queue.fifo != [] && queue.processing == {}
      modifies this
      ensures Valid() && queue.processing == {}
      ensures key == old(queue.fifo)[0]
      ensures var ok, keys := reconciled || SplitMetaNamespaceKey(key).None?, KeysOf(arrivals);
              && outcomes == old(outcomes) + [Outcome(key, ok)]
              && (key in requeued <==> !ok)
              && queue == old(queue).Turn(keys, ok)
              && queue.delayed == old(queue.delayed) + (if ok then {} else {key})
              && queue.fifo == old(queue.fifo)[1..] + FirstNew(Elements(old(queue.fifo)), keys)
                                 + (if key in keys then [key] else [])
              && (forall k :: k != key ==> (queue.Holds(k) <==> old(queue).Holds(k) || k in keys))
              && (queue.Holds(key) <==> !ok || key in keys || key in old(queue.delayed))
    {
      key := queue.fifo[0];
      TurnExact(queue, KeysOf(arrivals), reconciled || SplitMetaNamespaceKey(key).None?);
      OperationsKeepKeys(queue, key);
      queue := queue.Get();
      AddAll(arrivals);
      if SplitMetaNamespaceKey(key).None? {
        Forget(key);
      } else if !reconciled {
        Requeue(key);
      } else {
        Forget(key);
      }
      RequeuedExact(outcomes);
      queue := queue.Done(key);
    }

    method Requeue(key: string)
      requires Valid()
      modifies this
      ensures Valid() && queue == old(queue).AddRateLimited(key)
      ensures outcomes == old(outcomes) + [Outcome(key, false)]
    {
      OperationsKeepKeys(queue, key);
      queue := queue.AddRateLimited(key);
      AddRequeued(key);
      outcomes := outcomes + [Outcome(key, false)];
      assert outcomes[..|outcomes| - 1] == old(outcomes);
    }

    method Forget(key: string)
      requires Valid()
      modifies this
      ensures Valid() && queue == old(queue)
      ensures outcomes == old(outcomes) + [Outcome(key, true)]
    {
      RemoveRequeued(key);
      outcomes := outcomes + [Outcome(key, true)];
      assert outcomes[..|outcomes| - 1] == old(outcomes);
    }

    method AddRequeued(key: string)
      modifies this`requeued
      ensures requeued == WithRequeued(old(requeued), key)
    {
      for i := 0 to |requeued|
        invariant requeued == old(requeued) && key !in requeued[..i]
      {
        if requeued[i] == key {
          return;
        }
      }
      assert requeued[..|requeued|] == requeued;
      requeued := requeued + [key];
    }

    method RemoveRequeued(key: string)
      modifies this`requeued
      ensures requeued == WithoutRequeued(old(requeued), key)
    {
      for i := 0 to |requeued|
        invariant requeued == old(requeued) && key !in requeued[..i]
      {
        if requeued[i] == key {
          WithoutRequeuedAt(requeued, key, i);
          requeued := requeued[..i] + requeued[i + 1..];
          return;
        }
      }
      assert requeued[..|requeued|] == requeued;
      WithoutRequeuedAbsent(requeued, key);
    }
  }
}
