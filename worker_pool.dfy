/**
  * The objects of `gmaltcli/worker.py` (and of its older copy
  * `hgt2sql/worker.py`) whose fields change in place: the shared
  * `SafeCounter` and the `WorkerPool` with its queue, stop event and workers.
  * Each method is proved to leave the pool in the state the pure engine of
  * module `WorkerEngine` computes, where its properties are proved.
  */
module Workers {
  import opened Wrappers
  import opened WorkerEngine

  /** `SafeCounter`: the counter the threads of a pool share. */
  class SafeCounter {
    var counter: int
    var max: int
    var incr: int

    constructor (start: int, max: int, incr: int)
      ensures counter == start && this.max == max && this.incr == incr
    {
      counter := start;
      this.max := max;
      this.incr := incr;
    }

    /** `increment`: moves the counter by `incr` and returns the new value with `max`. */
    method Increment() returns (next: int, limit: int)
      modifies this
      ensures counter == old(counter) + incr && next == counter && limit == max
      ensures max == old(max) && incr == old(incr)
    {
      counter := counter + incr;
      next := counter;
      limit := max;
    }

    /** `get`. */
    function Get(): int
      reads this
    {
      counter
    }
  }

  /**
    * `WorkerPool`: `size` workers over one queue, one counter and one stop
    * event; `processed` and `ended` record, per worker, the items it processed
    * and the calls of its `_on_end`.
    */
  class WorkerPool<T> {
    const size: nat
    const counter: SafeCounter
    var queue: seq<T>
    var stop: bool
    var processed: seq<seq<T>>
    var ended: seq<nat>

    ghost predicate Valid()
      reads this
    {
      |processed| == size && |ended| == size
    }

    /** The pool as the engine sees it. */
    function State(): PoolState<T>
      reads this, counter
    {
      PoolState(queue, counter.counter, counter.max, counter.incr, stop, processed, ended)
    }

    /** `WorkerPool(worker, size)`: an empty queue, a counter at 0 stepping by 1, a clear stop event. */
    constructor (size: nat)
      ensures Valid() && this.size == size && fresh(counter)
      ensures State() == PoolState([], 0, 0, 1, false, seq(size, _ => []), seq(size, _ => 0))
      ensures Fresh(State())
    {
      this.size := size;
      counter := new SafeCounter(0, 0, 1);
      queue := [];
      stop := false;
      processed := seq(size, _ => []);
      ended := seq(size, _ => 0);
    }

    /** `fill` in `gmaltcli/worker.py`. */
    method Fill(it: Iterable<T>) returns (r: Outcome<PoolError>)
      requires Valid() && WellFormed(it)
      modifies this, counter
      ensures Valid()
      ensures (r, State()) == WorkerEngine.Fill(old(State()), it)
    {
      var i := 0;
      while i < Len(it)
        invariant 0 <= i <= Len(it) == |Elements(it)|
        invariant it.SetOf? ==> i == 0
        invariant queue == old(queue) + Elements(it)[..i]
        invariant unchanged(counter) && Valid()
        invariant stop == old(stop) && processed == old(processed) && ended == old(ended)
      {
        var item;
        match it {
          case SetOf(_) =>
            // a set cannot be indexed: `iterable[0]` raises
            return Fail(TypeError);
          case List(items) =>
            item := items[i];
          case Dict(keys, values) =>
            item := values[keys[i]];
        }
        assert Elements(it)[..i + 1] == Elements(it)[..i] + [item];
        queue := queue + [item];
        i := i + 1;
      }
      assert Elements(it)[..i] == Elements(it);
      counter.max := Len(it);
      r := Pass;
    }

    /** `fill` in `hgt2sql/worker.py`, run by Python 3 when `python3` holds. */
    method LegacyFill(it: Iterable<T>, python3: bool) returns (r: Outcome<PoolError>)
      requires Valid() && WellFormed(it)
      modifies this, counter
      ensures Valid()
      ensures (r, State()) == WorkerEngine.LegacyFill(old(State()), it, python3)
    {
      if python3 && !it.Dict? {
        // `xrange` is not defined
        return Fail(NameError);
      }
      r := Fill(it);
    }

    /** `_get_queue` in worker `w`. */
    method GetQueue(w: nat, fails: Oracle<T>)
      requires Valid() && w < size && queue != []
      modifies this, counter
      ensures Valid()
      ensures State() == WorkerEngine.GetQueue(old(State()), w, fails)
    {
      var item := queue[0];
      queue := queue[1..];
      var next, limit := counter.Increment();
      if fails(item, next, limit) {
        // the exception is caught and logged
        stop := true;
      } else {
        processed := processed[w := processed[w] + [item]];
      }
    }

    /** `run` of worker `w`. */
    method Run(w: nat, fails: Oracle<T>)
      requires Valid() && w < size
      modifies this, counter
      ensures Valid()
      ensures State() == WorkerEngine.Run(old(State()), w, fails)
    {
      while true
        invariant Valid()
        invariant WorkerEngine.Run(State(), w, fails) == WorkerEngine.Run(old(State()), w, fails)
        decreases |queue|
      {
        if queue == [] || stop {
          break;
        }
        GetQueue(w, fails);
      }
      ended := ended[w := ended[w] + 1];
    }

    /** One turn of worker `w`'s loop in the interleaving. */
    method Step(w: nat, fails: Oracle<T>)
      requires Valid() && w < size
      modifies this, counter
      ensures Valid()
      ensures State() == WorkerEngine.Step(old(State()), w, fails)
    {
      if ended[w] > 0 {
        return;
      }
      if queue == [] || stop {
        ended := ended[w := 1];
      } else {
        GetQueue(w, fails);
      }
    }

    /** `start`: the workers' turns follow `schedule`, then the pool waits for every thread still running. */
    method Start(schedule: seq<nat>, fails: Oracle<T>) returns (r: Outcome<PoolError>)
      requires Valid() && forall i :: 0 <= i < |schedule| ==> schedule[i] < size
      modifies this, counter
      ensures Valid()
      ensures (r, State()) == WorkerEngine.Start(old(State()), schedule, fails)
    {
      for i := 0 to |schedule|
        invariant Valid()
        invariant State() == Interleave(old(State()), schedule[..i], fails)
      {
        assert schedule[..i + 1][..i] == schedule[..i];
        Step(schedule[i], fails);
      }
      assert schedule[..|schedule|] == schedule;
      ghost var started := State();
      for w := 0 to size
        invariant Valid()
        invariant Finish(State(), w, fails) == Finish(started, 0, fails)
      {
        if ended[w] == 0 {
          Run(w, fails);
        }
      }
      r := if stop then Fail(WorkerPoolException) else Pass;
    }
  }
}
