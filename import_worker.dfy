/**
  * `ImportWorker` of `gmaltcli/worker.py`: the choice of elevation iterator
  * and the import loop, which hands records to the manager until the pool's
  * stop event is seen. The parser and its iterators live in `gmaltcli/hgt.py`,
  * which is not part of this model: the iterator's records are an input.
  */
module ImportWorker {
  import opened Wrappers

  /** The iterator `_get_iterator` asks the parser for. */
  datatype ElevationIterator =
    | SampleIterator(width: int, height: int)
    | ValueIterator

  /** Python truth of a configured sample size: `None` and `0` are false. */
  predicate Truthy(v: Option<int>)
  {
    v.Some? && v.value != 0
  }

  /** `configured or fallback`. */
  function OrElse(v: Option<int>, fallback: int): int
  {
    if Truthy(v) then v.value else fallback
  }

  /**
    * `_get_iterator`: in raster mode the sample iterator over blocks of the
    * configured width and height, each falling back to the parser's sample
    * count on its axis; otherwise the value iterator.
    */
  function GetIterator(useRaster: bool, sampleWidth: Option<int>, sampleHeight: Option<int>,
                       parserSampleLng: int, parserSampleLat: int): ElevationIterator
  {
    if useRaster then SampleIterator(OrElse(sampleWidth, parserSampleLng), OrElse(sampleHeight, parserSampleLat))
    else ValueIterator
  }

  /**
    * The sample iterator is chosen exactly in raster mode; a configured size
    * is used exactly when it is truthy, and otherwise the parser's, so a
    * parser with non-zero sample counts never yields a zero block size.
    */
  lemma GetIteratorChoice(useRaster: bool, sampleWidth: Option<int>, sampleHeight: Option<int>,
                          parserSampleLng: int, parserSampleLat: int)
    ensures var it := GetIterator(useRaster, sampleWidth, sampleHeight, parserSampleLng, parserSampleLat);
      && (it.SampleIterator? <==> useRaster)
      && (it.SampleIterator? ==>
            && (Truthy(sampleWidth) ==> it.width == sampleWidth.value)
            && (!Truthy(sampleWidth) ==> it.width == parserSampleLng)
            && (Truthy(sampleHeight) ==> it.height == sampleHeight.value)
            && (!Truthy(sampleHeight) ==> it.height == parserSampleLat)
            && (parserSampleLng != 0 ==> it.width != 0)
            && (parserSampleLat != 0 ==> it.height != 0))
  {
  }

  /** Configured sizes of `(0, None)` fall back to the parser's 1201 by 1201 samples. */
  lemma GetIteratorFallback()
    ensures GetIterator(true, Some(0), None, 1201, 1201) == SampleIterator(1201, 1201)
    ensures GetIterator(true, Some(10), Some(20), 1201, 1201) == SampleIterator(10, 20)
    ensures GetIterator(false, Some(10), Some(20), 1201, 1201) == ValueIterator
  {
  }

  /**
    * The number of records the loop hands over when `stopSeen[i]` tells
    * whether the stop event is set at the check before record `i`: the index
    * of the first check that sees it, or all of them.
    */
  function FirstStop(stopSeen: seq<bool>): (n: nat)
    ensures n <= |stopSeen|
    ensures forall i :: 0 <= i < n ==> !stopSeen[i]
    ensures n < |stopSeen| ==> stopSeen[n]
  {
    if stopSeen == [] || stopSeen[0] then 0 else 1 + FirstStop(stopSeen[1..])
  }

  /** The manager's `insert_or_update`, seen as a sink that keeps what it receives. */
  class ImportSink<V> {
    var received: seq<V>

    constructor ()
      ensures received == []
    {
      received := [];
    }

    method InsertOrUpdate(value: V)
      modifies this
      ensures received == old(received) + [value]
    {
      received := received + [value];
    }
  }

  /**
    * `_execute_import`: before each record the stop event is checked, and once
    * it is seen the loop ends; every record before that reaches the manager,
    * in order, and `processed` counts them.
    */
  method ExecuteImport<V>(values: seq<V>, stopSeen: seq<bool>, manager: ImportSink<V>) returns (processed: nat)
    requires |stopSeen| == |values|
    modifies manager
    ensures processed == FirstStop(stopSeen)
    ensures manager.received == old(manager.received) + values[..processed]
  {
    processed := 0;
    var i := 0;
    while i < |values|
      invariant 0 <= i <= |values| && processed == i
      invariant forall j :: 0 <= j < i ==> !stopSeen[j]
      invariant manager.received == old(manager.received) + values[..i]
    {
      if stopSeen[i] {
        break;
      }
      manager.InsertOrUpdate(values[i]);
      processed := processed + 1;
      assert values[..i + 1] == values[..i] + [values[i]];
      i := i + 1;
    }
    FirstStopIsFirst(stopSeen, processed);
  }

  /** The first check that sees the stop event is the one `FirstStop` names. */
  lemma FirstStopIsFirst(stopSeen: seq<bool>, k: nat)
    requires k <= |stopSeen|
    requires forall j :: 0 <= j < k ==> !stopSeen[j]
    requires k < |stopSeen| ==> stopSeen[k]
    ensures FirstStop(stopSeen) == k
  {
  }
}
