/**
  * The queue-draining engine of `gmaltcli/worker.py` and its older copy
  * `hgt2sql/worker.py`, as a pure state machine.
  *
  * The threads of a pool share one FIFO queue, one `SafeCounter` and one stop
  * event. Worker `w` (counting from 0) is the thread whose id is `w + 1`.
  * `process(item, (counter, max))` is an oracle: it raises exactly when
  * `fails(item, counter, max)` holds, and otherwise the item counts as
  * processed by that worker. Threads are replaced by a schedule: each entry
  * names the worker that takes the next turn of its loop.
  */
module WorkerEngine {
  import opened Wrappers

  datatype PoolError = WorkerPoolException | NameError | TypeError

  /** What `process` does with an item and the `(counter, max)` pair it receives: true when it raises. */
  type Oracle<-T> = (T, int, int) -> bool

  /**
    * The state the workers of one pool share, plus what each worker did:
    * `processed[w]` holds the items whose `process` call returned normally in
    * worker `w`, and `ended[w]` counts the calls of its `_on_end`.
    */
  datatype PoolState<T> = PoolState(
    queue: seq<T>,
    counter: int,
    max: int,
    incr: int,
    stop: bool,
    processed: seq<seq<T>>,
    ended: seq<nat>)

  predicate Valid<T>(s: PoolState<T>)
  {
    |s.processed| == |s.ended|
  }

  function Size<T>(s: PoolState<T>): nat
  {
    |s.processed|
  }

  /** All the items the workers processed, worker by worker. */
  function Flatten<T>(ss: seq<seq<T>>): seq<T>
  {
    if ss == [] then [] else Flatten(ss[..|ss| - 1]) + ss[|ss| - 1]
  }

  /** A pool no thread of which has run yet. */
  predicate Fresh<T>(s: PoolState<T>)
  {
    Valid(s) && !s.stop &&
    (forall w :: 0 <= w < Size(s) ==> s.processed[w] == [] && s.ended[w] == 0)
  }

  /** A thread that has finished only did so because the queue was empty or the stop event set. */
  predicate EndedOnlyWhenDone<T>(s: PoolState<T>)
    requires Valid(s)
  {
    forall w :: 0 <= w < Size(s) && s.ended[w] > 0 ==> s.queue == [] || s.stop
  }

  /** The counter after `n` calls of `increment`. */
  function Advanced(counter: int, incr: int, n: nat): int
  {
    if n == 0 then counter else Advanced(counter, incr, n - 1) + incr
  }

  /** No queued item makes `process` raise, given the counter value it will be handed. */
  predicate NoFailure<T>(s: PoolState<T>, fails: Oracle<T>)
  {
    forall i :: 0 <= i < |s.queue| ==> !fails(s.queue[i], Advanced(s.counter, s.incr, i + 1), s.max)
  }

  // ---------------------------------------------------------------- fill

  /**
    * What `fill` is given: a list, a dict (its keys in iteration order and its
    * key-to-value table), or a set (its members in some order).
    */
  datatype Iterable<T> =
    | List(items: seq<T>)
    | Dict(keys: seq<string>, values: map<string, T>)
    | SetOf(members: seq<T>)

  ghost predicate WellFormed<T>(it: Iterable<T>)
  {
    match it
    case List(_) => true
    case Dict(keys, values) =>
      (forall i, j :: 0 <= i < j < |keys| ==> keys[i] != keys[j]) &&
      values.Keys == set k | k in keys
    case SetOf(members) => forall i, j :: 0 <= i < j < |members| ==> members[i] != members[j]
  }

  /** `len(iterable)`. */
  function Len<T>(it: Iterable<T>): nat
  {
    match it
    case List(items) => |items|
    case Dict(keys, _) => |keys|
    case SetOf(members) => |members|
  }

  /** The items `fill` puts, in order, when it gets through. */
  function Elements<T>(it: Iterable<T>): seq<T>
    requires WellFormed(it)
  {
    match it
    case List(items) => items
    case Dict(keys, values) => seq(|keys|, i requires 0 <= i < |keys| => values[keys[i]])
    case SetOf(members) => members
  }

  /**
    * `fill` in `gmaltcli/worker.py`: a dict is walked by its keys, anything else
    * by the indices `0 .. len - 1`; each `iterable[key]` is put, then `max` is
    * set to the length. A non-empty set cannot be indexed and raises at the
    * first put.
    */
  function Fill<T>(s: PoolState<T>, it: Iterable<T>): (Outcome<PoolError>, PoolState<T>)
    requires WellFormed(it)
  {
    if it.SetOf? && it.members != [] then (Fail(TypeError), s)
    else (Pass, s.(queue := s.queue + Elements(it), max := Len(it)))
  }

  /**
    * `fill` in `hgt2sql/worker.py`, as written: the same walk, but the indices
    * come from `xrange`, a name that module never defines under Python 3, so
    * there every non-dict argument raises before anything is put.
    */
  function LegacyFill<T>(s: PoolState<T>, it: Iterable<T>, python3: bool): (Outcome<PoolError>, PoolState<T>)
    requires WellFormed(it)
  {
    if python3 && !it.Dict? then (Fail(NameError), s) else Fill(s, it)
  }

  // ---------------------------------------------------------------- one worker

  /**
    * `_get_queue` run by worker `w`: one item leaves the queue, the counter
    * moves once, and `process` either records the item or raises, which is
    * caught and sets the stop event. `queue.get()` blocks on an empty queue,
    * so the queue must hold an item.
    */
  function GetQueue<T>(s: PoolState<T>, w: nat, fails: Oracle<T>): (r: PoolState<T>)
    requires Valid(s) && w < Size(s) && s.queue != []
    ensures Valid(r) && Size(r) == Size(s)
  {
    var item := s.queue[0];
    var next := s.counter + s.incr;
    var popped := s.(queue := s.queue[1..], counter := next);
    if fails(item, next, s.max) then popped.(stop := true)
    else popped.(processed := s.processed[w := s.processed[w] + [item]])
  }

  /** `run` of worker `w`: `_get_queue` until the queue is empty or the stop event set, then `_on_end`. */
  function Run<T>(s: PoolState<T>, w: nat, fails: Oracle<T>): (r: PoolState<T>)
    requires Valid(s) && w < Size(s)
    ensures Valid(r) && Size(r) == Size(s)
    decreases |s.queue|
  {
    if s.queue == [] || s.stop then s.(ended := s.ended[w := s.ended[w] + 1])
    else Run(GetQueue(s, w, fails), w, fails)
  }

  // ---------------------------------------------------------------- the pool

  /** One turn of worker `w`'s loop; a thread that has finished does nothing more. */
  function Step<T>(s: PoolState<T>, w: nat, fails: Oracle<T>): (r: PoolState<T>)
    requires Valid(s) && w < Size(s)
    ensures Valid(r) && Size(r) == Size(s)
  {
    if s.ended[w] > 0 then s
    else if s.queue == [] || s.stop then s.(ended := s.ended[w := 1])
    else GetQueue(s, w, fails)
  }

  predicate Scheduled<T>(s: PoolState<T>, schedule: seq<nat>)
  {
    forall i :: 0 <= i < |schedule| ==> schedule[i] < Size(s)
  }

  /** The turns of `schedule`, taken in order. */
  function Interleave<T>(s: PoolState<T>, schedule: seq<nat>, fails: Oracle<T>): (r: PoolState<T>)
    requires Valid(s) && Scheduled(s, schedule)
    ensures Valid(r) && Size(r) == Size(s)
  {
    if schedule == [] then s
    else
      var n := |schedule| - 1;
      Step(Interleave(s, schedule[..n], fails), schedule[n], fails)
  }

  /** `_wait`: every thread from `k` on that is still running runs to its end. */
  function Finish<T>(s: PoolState<T>, k: nat, fails: Oracle<T>): (r: PoolState<T>)
    requires Valid(s) && k <= Size(s)
    ensures Valid(r) && Size(r) == Size(s)
    decreases Size(s) - k
  {
    if k == Size(s) then s
    else Finish(if s.ended[k] > 0 then s else Run(s, k, fails), k + 1, fails)
  }

  /**
    * `start`: the threads take turns as `schedule` says, the pool waits for all
    * of them, then raises `WorkerPoolException` iff the stop event is set.
    * Any complete interleaving is a schedule after which `Finish` has nothing
    * left to do.
    */
  function Start<T>(s: PoolState<T>, schedule: seq<nat>, fails: Oracle<T>): (Outcome<PoolError>, PoolState<T>)
    requires Valid(s) && Scheduled(s, schedule)
  {
    var t := Finish(Interleave(s, schedule, fails), 0, fails);
    (if t.stop then Fail(WorkerPoolException) else Pass, t)
  }

  // ---------------------------------------------------------------- lemmas: fill

  /** `fill` enqueues every element after what was queued and sets `max` to the length; only a non-empty set raises. */
  lemma FillEnqueues<T>(s: PoolState<T>, it: Iterable<T>)
    requires WellFormed(it)
    ensures Fill(s, it).0 == Pass <==> !(it.SetOf? && it.members != [])
    ensures Fill(s, it).0 == Pass ==>
              Fill(s, it).1 == s.(queue := s.queue + Elements(it), max := Len(it))
    ensures Fill(s, it).0 != Pass ==> Fill(s, it).1 == s
    ensures |Elements(it)| == Len(it)
    ensures it.Dict? ==> forall i :: 0 <= i < |it.keys| ==> Elements(it)[i] == it.values[it.keys[i]]
    ensures it.Dict? ==> forall k :: k in it.values ==> it.values[k] in Elements(it)
  {
    if it.Dict? {
      forall k | k in it.values
        ensures it.values[k] in Elements(it)
      {
        var i :| 0 <= i < |it.keys| && it.keys[i] == k;
        assert Elements(it)[i] == it.values[k];
      }
    }
  }

  /** A list of 99 names gives a queue of 99 items and a `max` of 99. */
  lemma FillNinetyNine(s: PoolState<string>, names: seq<string>)
    requires s.queue == [] && |names| == 99
    ensures Fill(s, List(names)).0 == Pass
    ensures |Fill(s, List(names)).1.queue| == 99 && Fill(s, List(names)).1.max == 99
  {
  }

  /** Under Python 3 the older `fill` refuses every list, leaving the pool as it was, where the newer one enqueues it. */
  lemma LegacyFillRejectsLists<T>(s: PoolState<T>, items: seq<T>)
    ensures LegacyFill(s, List(items), true) == (Fail(NameError), s)
    ensures Fill(s, List(items)) == (Pass, s.(queue := s.queue + items, max := |items|))
    ensures items != [] ==> LegacyFill(s, List(items), true) != Fill(s, List(items))
    ensures forall keys: seq<string>, values: map<string, T>, python3 :: WellFormed(Dict(keys, values)) ==>
              LegacyFill(s, Dict(keys, values), python3) == Fill(s, Dict(keys, values))
  {
  }

  // ---------------------------------------------------------------- lemmas: one worker

  /** Processing an item in worker `w` adds it to the items processed overall. */
  lemma {:induction false} FlattenUpdate<T>(ss: seq<seq<T>>, w: nat, xs: seq<T>)
    requires w < |ss|
    ensures multiset(Flatten(ss[w := ss[w] + xs])) == multiset(Flatten(ss)) + multiset(xs)
  {
    var n := |ss| - 1;
    var tt := ss[w := ss[w] + xs];
    assert tt[..n] == if w == n then ss[..n] else ss[..n][w := ss[..n][w] + xs];
    if w < n {
      FlattenUpdate(ss[..n], w, xs);
    }
  }

  /** Workers that processed nothing processed nothing overall. */
  lemma {:induction false} FlattenEmpty<T>(ss: seq<seq<T>>)
    requires forall w :: 0 <= w < |ss| ==> ss[w] == []
    ensures Flatten(ss) == []
  {
    if ss != [] {
      FlattenEmpty(ss[..|ss| - 1]);
    }
  }

  /**
    * `_get_queue` pops exactly one item and moves the counter exactly once,
    * whether or not `process` raises; a raise is swallowed and sets the stop
    * event, and otherwise the item is recorded by that worker alone.
    */
  lemma GetQueueOnce<T>(s: PoolState<T>, w: nat, fails: Oracle<T>)
    requires Valid(s) && w < Size(s) && s.queue != []
    ensures var r := GetQueue(s, w, fails);
      var raised := fails(s.queue[0], s.counter + s.incr, s.max);
      && r.queue == s.queue[1..] && r.counter == s.counter + s.incr
      && r.max == s.max && r.incr == s.incr && r.ended == s.ended
      && r.stop == (s.stop || raised)
      && r.processed[w] == s.processed[w] + (if raised then [] else [s.queue[0]])
      && (forall v :: 0 <= v < Size(s) && v != w ==> r.processed[v] == s.processed[v])
      && multiset(Flatten(r.processed)) + multiset(r.queue) + (if raised then multiset{s.queue[0]} else multiset{})
         == multiset(Flatten(s.processed)) + multiset(s.queue)
  {
    var r := GetQueue(s, w, fails);
    assert s.queue == [s.queue[0]] + s.queue[1..];
    if !fails(s.queue[0], s.counter + s.incr, s.max) {
      FlattenUpdate(s.processed, w, [s.queue[0]]);
    }
  }

  /**
    * `run` always ends with one call of `_on_end`, an empty queue or a set
    * stop event, and whatever was queued before; if the stop event was already
    * set, nothing is popped.
    */
  lemma {:induction false} RunEndsOnce<T>(s: PoolState<T>, w: nat, fails: Oracle<T>)
    requires Valid(s) && w < Size(s)
    ensures var r := Run(s, w, fails);
      && r.ended == s.ended[w := s.ended[w] + 1]
      && (r.queue == [] || r.stop)
      && (s.stop ==> r.stop && r.queue == s.queue && r.processed == s.processed && r.counter == s.counter)
      && r.max == s.max && r.incr == s.incr
      && (EndedOnlyWhenDone(s) ==> EndedOnlyWhenDone(r))
    decreases |s.queue|
  {
    if s.queue != [] && !s.stop {
      GetQueueOnce(s, w, fails);
      RunEndsOnce(GetQueue(s, w, fails), w, fails);
    }
  }

  /** `increment` adds `incr` each time: `n` calls from `counter` reach `counter + n * incr`. */
  lemma {:induction false} AdvancedValue(counter: int, incr: int, n: nat)
    ensures Advanced(counter, incr, n) == counter + n * incr
  {
    if n > 0 {
      AdvancedValue(counter, incr, n - 1);
      assert (n - 1) * incr + incr == n * incr;
    }
  }

  /** From 10 by 5 the counter reads 15 then 20; from 0 by 1 it reads `n` after `n` increments. */
  lemma CounterExamples()
    ensures Advanced(10, 5, 1) == 15 && Advanced(10, 5, 2) == 20
    ensures forall n: nat :: Advanced(0, 1, n) == n
  {
    forall n: nat
      ensures Advanced(0, 1, n) == n
    {
      AdvancedValue(0, 1, n);
    }
  }

  /** Counting from the next value is counting one step further. */
  lemma {:induction false} AdvancedShift(counter: int, incr: int, n: nat)
    ensures Advanced(counter + incr, incr, n) == Advanced(counter, incr, n + 1)
  {
    if n > 0 {
      AdvancedShift(counter, incr, n - 1);
    }
  }

  /** Popping a queued item that did not raise leaves the rest free of failures too. */
  lemma NoFailureAfterPop<T>(s: PoolState<T>, w: nat, fails: Oracle<T>)
    requires Valid(s) && w < Size(s) && s.queue != [] && NoFailure(s, fails)
    ensures !fails(s.queue[0], s.counter + s.incr, s.max)
    ensures NoFailure(GetQueue(s, w, fails), fails)
  {
    assert Advanced(s.counter, s.incr, 1) == s.counter + s.incr;
    var r := GetQueue(s, w, fails);
    forall i | 0 <= i < |r.queue|
      ensures !fails(r.queue[i], Advanced(r.counter, r.incr, i + 1), r.max)
    {
      assert r.queue[i] == s.queue[i + 1];
      AdvancedShift(s.counter, s.incr, i + 1);
    }
  }

  /**
    * With no failure, `run` processes every queued item in FIFO order, empties
    * the queue, leaves the stop event clear and moves the counter once per item.
    */
  lemma {:induction false} RunNoFailure<T>(s: PoolState<T>, w: nat, fails: Oracle<T>)
    requires Valid(s) && w < Size(s) && !s.stop && NoFailure(s, fails)
    ensures var r := Run(s, w, fails);
      && r.queue == [] && !r.stop
      && r.processed == s.processed[w := s.processed[w] + s.queue]
      && r.counter == Advanced(s.counter, s.incr, |s.queue|)
      && r.ended == s.ended[w := s.ended[w] + 1]
    decreases |s.queue|
  {
    if s.queue == [] {
      assert s.processed[w] + s.queue == s.processed[w];
    } else {
      NoFailureAfterPop(s, w, fails);
      var t := GetQueue(s, w, fails);
      assert t == s.(queue := s.queue[1..], counter := s.counter + s.incr,
                     processed := s.processed[w := s.processed[w] + [s.queue[0]]]);
      RunNoFailure(t, w, fails);
      assert s.processed[w] + s.queue == (s.processed[w] + [s.queue[0]]) + t.queue;
      AdvancedShift(s.counter, s.incr, |t.queue|);
    }
  }

  /** After one pop, the first failing item moves one place forward and its counter value stays. */
  lemma ShiftFailures<T>(s: PoolState<T>, t: PoolState<T>, fails: Oracle<T>, k: nat)
    requires 0 < k < |s.queue| && t.queue == s.queue[1..]
    requires t.counter == s.counter + s.incr && t.incr == s.incr && t.max == s.max
    requires forall i :: 0 <= i < k ==> !fails(s.queue[i], Advanced(s.counter, s.incr, i + 1), s.max)
    requires fails(s.queue[k], Advanced(s.counter, s.incr, k + 1), s.max)
    ensures forall i :: 0 <= i < k - 1 ==> !fails(t.queue[i], Advanced(t.counter, t.incr, i + 1), t.max)
    ensures fails(t.queue[k - 1], Advanced(t.counter, t.incr, k), t.max)
  {
    forall i | 0 <= i < k - 1
      ensures !fails(t.queue[i], Advanced(t.counter, t.incr, i + 1), t.max)
    {
      assert t.queue[i] == s.queue[i + 1];
      AdvancedShift(s.counter, s.incr, i + 1);
    }
    assert t.queue[k - 1] == s.queue[k];
    AdvancedShift(s.counter, s.incr, k);
  }

  /**
    * If the `k + 1`-th item popped is the first whose `process` raises, `run`
    * records exactly the `k` items before it, leaves the items after it queued
    * and sets the stop event.
    */
  lemma {:induction false} RunFailsAt<T>(s: PoolState<T>, w: nat, fails: Oracle<T>, k: nat)
    requires Valid(s) && w < Size(s) && !s.stop && k < |s.queue|
    requires forall i :: 0 <= i < k ==> !fails(s.queue[i], Advanced(s.counter, s.incr, i + 1), s.max)
    requires fails(s.queue[k], Advanced(s.counter, s.incr, k + 1), s.max)
    ensures var r := Run(s, w, fails);
      && r.stop
      && r.processed == s.processed[w := s.processed[w] + s.queue[..k]]
      && r.queue == s.queue[k + 1..]
      && r.counter == Advanced(s.counter, s.incr, k + 1)
      && r.ended == s.ended[w := s.ended[w] + 1]
    decreases k
  {
    assert Advanced(s.counter, s.incr, 1) == s.counter + s.incr;
    if k == 0 {
      assert s.queue[..0] == [] && s.processed[w] + [] == s.processed[w];
    } else {
      var t := GetQueue(s, w, fails);
      assert t == s.(queue := s.queue[1..], counter := s.counter + s.incr,
                     processed := s.processed[w := s.processed[w] + [s.queue[0]]]);
      ShiftFailures(s, t, fails, k);
      AdvancedShift(s.counter, s.incr, k);
      RunFailsAt(t, w, fails, k - 1);
      PrefixAfterPop(s.queue, s.processed[w], k);
    }
  }

  lemma PrefixAfterPop<T>(q: seq<T>, done: seq<T>, k: nat)
    requires 0 < k < |q|
    ensures q[1..][k..] == q[k + 1..]
    ensures done + q[..k] == (done + [q[0]]) + q[1..][..k - 1]
  {
    assert q[..k] == [q[0]] + q[1..][..k - 1];
  }

  /** `process` as the error worker of the tests: it raises on item 80 or when handed counter 80. */
  function ErrorWorker(item: int, counter: int, max: int): bool
  {
    item == 80 || counter == 80
  }

  /** `process` that never raises. */
  function NeverFails(item: int, counter: int, max: int): bool
  {
    false
  }

  /** The items 1 to 99 queued before a fresh one-worker pool, the counter at 0. */
  function OneToNinetyNine(): PoolState<int>
  {
    PoolState(seq(99, i => i + 1), 0, 0, 1, false, [[]], [0])
  }

  /**
    * A worker that never fails processes all 99 items, empties the queue and
    * leaves the stop event clear; the error worker processes 79, leaves 19 and
    * sets the stop event. Each worker's `_on_end` runs once.
    */
  lemma NinetyNineItems()
    ensures var r := Run(OneToNinetyNine(), 0, NeverFails);
      |r.processed[0]| == 99 && r.queue == [] && !r.stop && r.ended == [1] && r.counter == 99
    ensures var r := Run(OneToNinetyNine(), 0, ErrorWorker);
      |r.processed[0]| == 79 && |r.queue| == 19 && r.stop && r.ended == [1] && r.counter == 80
  {
    var s := OneToNinetyNine();
    RunNoFailure(s, 0, NeverFails);
    AdvancedValue(0, 1, 99);
    forall i | 0 <= i < 79
      ensures !ErrorWorker(s.queue[i], Advanced(s.counter, s.incr, i + 1), s.max)
    {
      AdvancedValue(0, 1, i + 1);
    }
    assert s.queue[79] == 80;
    AdvancedValue(0, 1, 80);
    RunFailsAt(s, 0, ErrorWorker, 79);
  }

  // ---------------------------------------------------------------- lemmas: the pool

  /** Threads end at most once: a turn taken by a finished thread is a no-op. */
  lemma {:induction false} InterleaveEndsAtMostOnce<T>(s: PoolState<T>, schedule: seq<nat>, fails: Oracle<T>)
    requires Valid(s) && Scheduled(s, schedule)
    requires forall w :: 0 <= w < Size(s) ==> s.ended[w] <= 1
    ensures forall w :: 0 <= w < Size(s) ==> Interleave(s, schedule, fails).ended[w] <= 1
  {
    if schedule != [] {
      var n := |schedule| - 1;
      InterleaveEndsAtMostOnce(s, schedule[..n], fails);
      var t := Interleave(s, schedule[..n], fails);
      var w := schedule[n];
      var r := Step(t, w, fails);
      assert Interleave(s, schedule, fails) == r;
      if t.ended[w] == 0 && t.queue != [] && !t.stop {
        GetQueueOnce(t, w, fails);
        assert r.ended == t.ended;
      } else {
        assert r.ended == t.ended || r.ended == t.ended[w := 1];
      }
    }
  }

  /** After the wait every thread from `k` on has ended exactly once, and the earlier ones are as they were. */
  lemma {:induction false} FinishEndsAll<T>(s: PoolState<T>, k: nat, fails: Oracle<T>)
    requires Valid(s) && k <= Size(s)
    requires forall w :: 0 <= w < Size(s) ==> s.ended[w] <= 1
    ensures var r := Finish(s, k, fails);
      && (forall w :: k <= w < Size(s) ==> r.ended[w] == 1)
      && (forall w :: 0 <= w < k ==> r.ended[w] == s.ended[w])
    decreases Size(s) - k
  {
    if k < Size(s) {
      var t := if s.ended[k] > 0 then s else Run(s, k, fails);
      if s.ended[k] == 0 {
        RunEndsOnce(s, k, fails);
      }
      assert t.ended[k] == 1 && forall w :: 0 <= w < Size(s) && w != k ==> t.ended[w] == s.ended[w];
      FinishEndsAll(t, k + 1, fails);
      assert Finish(s, k, fails) == Finish(t, k + 1, fails);
    }
  }

  /** A turn with no failure keeps the stop event clear and every item either queued or processed. */
  lemma StepNoFailure<T>(s: PoolState<T>, w: nat, fails: Oracle<T>)
    requires Valid(s) && w < Size(s) && !s.stop && NoFailure(s, fails) && EndedOnlyWhenDone(s)
    ensures var r := Step(s, w, fails);
      && !r.stop && NoFailure(r, fails) && EndedOnlyWhenDone(r)
      && multiset(Flatten(r.processed)) + multiset(r.queue) == multiset(Flatten(s.processed)) + multiset(s.queue)
  {
    if s.ended[w] == 0 && s.queue != [] {
      NoFailureAfterPop(s, w, fails);
      GetQueueOnce(s, w, fails);
    }
  }

  lemma {:induction false} InterleaveNoFailure<T>(s: PoolState<T>, schedule: seq<nat>, fails: Oracle<T>)
    requires Valid(s) && Scheduled(s, schedule) && !s.stop && NoFailure(s, fails) && EndedOnlyWhenDone(s)
    ensures var r := Interleave(s, schedule, fails);
      && !r.stop && NoFailure(r, fails) && EndedOnlyWhenDone(r)
      && multiset(Flatten(r.processed)) + multiset(r.queue) == multiset(Flatten(s.processed)) + multiset(s.queue)
  {
    if schedule != [] {
      var n := |schedule| - 1;
      InterleaveNoFailure(s, schedule[..n], fails);
      StepNoFailure(Interleave(s, schedule[..n], fails), schedule[n], fails);
    }
  }

  lemma {:induction false} FinishNoFailure<T>(s: PoolState<T>, k: nat, fails: Oracle<T>)
    requires Valid(s) && k <= Size(s) && !s.stop && NoFailure(s, fails) && EndedOnlyWhenDone(s)
    ensures var r := Finish(s, k, fails);
      && !r.stop && (k < Size(s) ==> r.queue == [])
      && multiset(Flatten(r.processed)) + multiset(r.queue) == multiset(Flatten(s.processed)) + multiset(s.queue)
    decreases Size(s) - k
  {
    if k < Size(s) {
      var t := if s.ended[k] > 0 then s else Run(s, k, fails);
      if s.ended[k] == 0 {
        RunNoFailure(s, k, fails);
        FlattenUpdate(s.processed, k, s.queue);
      }
      assert t.queue == [] && EndedOnlyWhenDone(t) && NoFailure(t, fails);
      FinishNoFailure(t, k + 1, fails);
    }
  }

  /**
    * With at least one worker and no failing item, `start` returns normally
    * under every schedule, the queue ends empty, the workers together
    * processed each queued item exactly once, and each `_on_end` ran once.
    */
  lemma StartPassesWithoutFailure<T>(s: PoolState<T>, schedule: seq<nat>, fails: Oracle<T>)
    requires Fresh(s) && Size(s) > 0 && Scheduled(s, schedule) && NoFailure(s, fails)
    ensures Start(s, schedule, fails).0 == Pass
    ensures var t := Start(s, schedule, fails).1;
      && t.queue == []
      && multiset(Flatten(t.processed)) == multiset(s.queue)
      && |Flatten(t.processed)| == |s.queue|
      && forall w :: 0 <= w < Size(t) ==> t.ended[w] == 1
  {
    FlattenEmpty(s.processed);
    InterleaveNoFailure(s, schedule, fails);
    InterleaveEndsAtMostOnce(s, schedule, fails);
    var i := Interleave(s, schedule, fails);
    FinishNoFailure(i, 0, fails);
    FinishEndsAll(i, 0, fails);
    var t := Finish(i, 0, fails);
    assert multiset(Flatten(s.processed)) == multiset{};
    assert multiset(Flatten(i.processed)) + multiset(i.queue) == multiset(s.queue);
    assert t.queue == [];
    assert multiset(Flatten(t.processed)) == multiset(s.queue);
    assert |multiset(Flatten(t.processed))| == |multiset(s.queue)|;
  }

  /** An item that always fails keeps the pool either stopped or still holding it. */
  ghost predicate Pending<T>(s: PoolState<T>, x: T, max: int)
  {
    s.max == max && (s.stop || x in s.queue)
  }

  lemma GetQueueKeepsPending<T>(s: PoolState<T>, w: nat, fails: Oracle<T>, x: T)
    requires Valid(s) && w < Size(s) && s.queue != [] && Pending(s, x, s.max)
    requires forall c :: fails(x, c, s.max)
    ensures Pending(GetQueue(s, w, fails), x, s.max)
  {
    GetQueueOnce(s, w, fails);
    if !s.stop && s.queue[0] != x {
      assert s.queue == [s.queue[0]] + s.queue[1..];
    }
  }

  lemma {:induction false} RunKeepsPending<T>(s: PoolState<T>, w: nat, fails: Oracle<T>, x: T, max: int)
    requires Valid(s) && w < Size(s) && Pending(s, x, max)
    requires forall c :: fails(x, c, max)
    ensures Pending(Run(s, w, fails), x, max)
    decreases |s.queue|
  {
    if s.queue != [] && !s.stop {
      GetQueueKeepsPending(s, w, fails, x);
      RunKeepsPending(GetQueue(s, w, fails), w, fails, x, max);
    }
  }

  lemma {:induction false} InterleaveKeepsPending<T>(s: PoolState<T>, schedule: seq<nat>, fails: Oracle<T>, x: T, max: int)
    requires Valid(s) && Scheduled(s, schedule) && Pending(s, x, max) && EndedOnlyWhenDone(s)
    requires forall c :: fails(x, c, max)
    ensures var r := Interleave(s, schedule, fails);
      Pending(r, x, max) && EndedOnlyWhenDone(r)
  {
    if schedule != [] {
      var n := |schedule| - 1;
      InterleaveKeepsPending(s, schedule[..n], fails, x, max);
      var t := Interleave(s, schedule[..n], fails);
      if t.ended[schedule[n]] == 0 && t.queue != [] && !t.stop {
        GetQueueKeepsPending(t, schedule[n], fails, x);
        GetQueueOnce(t, schedule[n], fails);
      }
    }
  }

  lemma {:induction false} FinishKeepsPending<T>(s: PoolState<T>, k: nat, fails: Oracle<T>, x: T, max: int)
    requires Valid(s) && k <= Size(s) && Pending(s, x, max) && EndedOnlyWhenDone(s)
    requires forall c :: fails(x, c, max)
    ensures var r := Finish(s, k, fails);
      Pending(r, x, max) && EndedOnlyWhenDone(r)
    decreases Size(s) - k
  {
    if k < Size(s) {
      if s.ended[k] == 0 {
        RunKeepsPending(s, k, fails, x, max);
        RunEndsOnce(s, k, fails);
      }
      FinishKeepsPending(if s.ended[k] > 0 then s else Run(s, k, fails), k + 1, fails, x, max);
    }
  }

  /**
    * With at least one worker, an item whose `process` always raises makes
    * `start` raise `WorkerPoolException` under every schedule.
    */
  lemma StartRaisesOnFailingItem<T>(s: PoolState<T>, schedule: seq<nat>, fails: Oracle<T>, x: T)
    requires Fresh(s) && Size(s) > 0 && Scheduled(s, schedule) && x in s.queue
    requires forall c :: fails(x, c, s.max)
    ensures Start(s, schedule, fails).0 == Fail(WorkerPoolException)
  {
    InterleaveKeepsPending(s, schedule, fails, x, s.max);
    InterleaveEndsAtMostOnce(s, schedule, fails);
    var i := Interleave(s, schedule, fails);
    FinishKeepsPending(i, 0, fails, x, s.max);
    FinishEndsAll(i, 0, fails);
    var t := Finish(i, 0, fails);
    assert t.ended[0] == 1;
  }

  // ---------------------------------------------------------------- lemmas: a failing pop

  /**
    * The `m`-th item still queued (from 0) is the first one whose `process`
    * raises, given the counter value each pop will hand it.
    */
  predicate FailsFirstAt<T>(s: PoolState<T>, fails: Oracle<T>, m: nat)
  {
    m < |s.queue|
    && (forall i :: 0 <= i < m ==> !fails(s.queue[i], Advanced(s.counter, s.incr, i + 1), s.max))
    && fails(s.queue[m], Advanced(s.counter, s.incr, m + 1), s.max)
  }

  /** Either the stop event is set or some pop still ahead will set it. */
  ghost predicate FailureAhead<T>(s: PoolState<T>, fails: Oracle<T>)
  {
    s.stop || exists m: nat :: FailsFirstAt(s, fails, m)
  }

  lemma GetQueueKeepsFailureAhead<T>(s: PoolState<T>, w: nat, fails: Oracle<T>)
    requires Valid(s) && w < Size(s) && s.queue != [] && FailureAhead(s, fails)
    ensures FailureAhead(GetQueue(s, w, fails), fails)
  {
    var r := GetQueue(s, w, fails);
    assert r.queue == s.queue[1..] && r.counter == s.counter + s.incr && r.incr == s.incr && r.max == s.max;
    assert r.stop == (s.stop || fails(s.queue[0], s.counter + s.incr, s.max));
    if !s.stop {
      var m: nat :| FailsFirstAt(s, fails, m);
      if m > 0 {
        ShiftFailures(s, r, fails, m);
        assert FailsFirstAt(r, fails, m - 1);
      } else {
        assert Advanced(s.counter, s.incr, 1) == s.counter + s.incr;
      }
    }
  }

  lemma {:induction false} RunKeepsFailureAhead<T>(s: PoolState<T>, w: nat, fails: Oracle<T>)
    requires Valid(s) && w < Size(s) && FailureAhead(s, fails)
    ensures FailureAhead(Run(s, w, fails), fails)
    decreases |s.queue|
  {
    if s.queue != [] && !s.stop {
      GetQueueKeepsFailureAhead(s, w, fails);
      RunKeepsFailureAhead(GetQueue(s, w, fails), w, fails);
    }
  }

  lemma {:induction false} InterleaveKeepsFailureAhead<T>(s: PoolState<T>, schedule: seq<nat>, fails: Oracle<T>)
    requires Valid(s) && Scheduled(s, schedule) && FailureAhead(s, fails) && EndedOnlyWhenDone(s)
    ensures var r := Interleave(s, schedule, fails);
      FailureAhead(r, fails) && EndedOnlyWhenDone(r)
  {
    if schedule != [] {
      var n := |schedule| - 1;
      InterleaveKeepsFailureAhead(s, schedule[..n], fails);
      var t := Interleave(s, schedule[..n], fails);
      if t.ended[schedule[n]] == 0 && t.queue != [] && !t.stop {
        GetQueueKeepsFailureAhead(t, schedule[n], fails);
        GetQueueOnce(t, schedule[n], fails);
      }
    }
  }

  lemma {:induction false} FinishKeepsFailureAhead<T>(s: PoolState<T>, k: nat, fails: Oracle<T>)
    requires Valid(s) && k <= Size(s) && FailureAhead(s, fails) && EndedOnlyWhenDone(s)
    ensures var r := Finish(s, k, fails);
      FailureAhead(r, fails) && EndedOnlyWhenDone(r)
    decreases Size(s) - k
  {
    if k < Size(s) {
      if s.ended[k] == 0 {
        RunKeepsFailureAhead(s, k, fails);
        RunEndsOnce(s, k, fails);
      }
      FinishKeepsFailureAhead(if s.ended[k] > 0 then s else Run(s, k, fails), k + 1, fails);
    }
  }

  /**
    * With at least one worker, if the pop that hands out the counter value
    * reached after `k + 1` increments is the first whose `process` raises,
    * `start` raises `WorkerPoolException` under every schedule: whichever
    * thread takes that pop sets the stop event.
    */
  lemma StartRaisesOnFailingPop<T>(s: PoolState<T>, schedule: seq<nat>, fails: Oracle<T>, k: nat)
    requires Fresh(s) && Size(s) > 0 && Scheduled(s, schedule) && k < |s.queue|
    requires forall i :: 0 <= i < k ==> !fails(s.queue[i], Advanced(s.counter, s.incr, i + 1), s.max)
    requires fails(s.queue[k], Advanced(s.counter, s.incr, k + 1), s.max)
    ensures Start(s, schedule, fails).0 == Fail(WorkerPoolException)
  {
    assert FailsFirstAt(s, fails, k);
    InterleaveKeepsFailureAhead(s, schedule, fails);
    InterleaveEndsAtMostOnce(s, schedule, fails);
    var i := Interleave(s, schedule, fails);
    FinishKeepsFailureAhead(i, 0, fails);
    FinishEndsAll(i, 0, fails);
    var t := Finish(i, 0, fails);
    assert t.ended[0] == 1;
  }

  /**
    * `process` of the error worker when the items are names: a name never
    * equals the number 80, so only the counter value 80 makes it raise.
    */
  function ErrorWorkerOnNames(item: string, counter: int, max: int): bool
  {
    counter == 80
  }

  /** `process` that never raises, on names. */
  function NeverFailsOnNames(item: string, counter: int, max: int): bool
  {
    false
  }

  /**
    * The pool of the tests: five fresh workers filled with a list of 99 names
    * (`item1` to `item99` there) all finish with the 99 names processed, and
    * with the error worker the 80th pop raises and so does `start`.
    */
  lemma FiveWorkers(names: seq<string>, schedule: seq<nat>)
    requires |names| == 99
    requires forall i :: 0 <= i < |schedule| ==> schedule[i] < 5
    ensures var s := Fill(PoolState([], 0, 0, 1, false, [[], [], [], [], []], [0, 0, 0, 0, 0]), List(names)).1;
      && Start(s, schedule, NeverFailsOnNames).0 == Pass
      && |Flatten(Start(s, schedule, NeverFailsOnNames).1.processed)| == 99
      && Start(s, schedule, ErrorWorkerOnNames).0 == Fail(WorkerPoolException)
  {
    var s0 := PoolState([], 0, 0, 1, false, [[], [], [], [], []], [0, 0, 0, 0, 0]);
    FillEnqueues(s0, List(names));
    var s := Fill(s0, List(names)).1;
    assert s.queue == names && s.counter == 0 && s.incr == 1;
    StartPassesWithoutFailure(s, schedule, NeverFailsOnNames);
    forall i | 0 <= i < 79
      ensures !ErrorWorkerOnNames(s.queue[i], Advanced(s.counter, s.incr, i + 1), s.max)
    {
      AdvancedValue(0, 1, i + 1);
    }
    AdvancedValue(0, 1, 80);
    StartRaisesOnFailingPop(s, schedule, ErrorWorkerOnNames, 79);
  }
}
