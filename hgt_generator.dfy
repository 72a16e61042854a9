/**
  * The test-file generator script: `width * width` samples, each drawn in
  * [0, 500], appended to a list and written to the output file as big-endian
  * signed 16-bit integers. The random draws are an input of the model.
  */
module HgtGenerator {
  import opened HgtScan

  const MaxDraw: int := 500

  predicate ValidDraws(draws: seq<int>)
  {
    forall k :: 0 <= k < |draws| ==> 0 <= draws[k] <= MaxDraw
  }

  /**
    * The generator's loop. `draws` holds what `random.randint(0, 500)`
    * returns on successive calls; the loop runs `width ** 2` times, so a
    * negative width behaves like its absolute value.
    */
  method Generate(width: int, draws: seq<int>) returns (values: seq<int>, written: seq<Byte>)
    requires |draws| >= width * width && ValidDraws(draws)
    ensures values == draws[..width * width]
    ensures |written| == 2 * (width * width)
    ensures forall k :: 0 <= k < |values| ==> 0 <= values[k] <= MaxDraw
    ensures written == EncodeAll(values)
  {
    var count := width * width;
    values, written := [], [];
    var i := 0;
    while i < count
      invariant 0 <= i <= count
      invariant values == draws[..i]
      invariant written == EncodeAll(values)
    {
      var value := draws[i];
      values := values + [value];
      written := written + EncodeInt16(value);
      assert values[..|values| - 1] == draws[..i];
      i := i + 1;
    }
  }

  /** The printed list is what the decoder reads back from the written file, in file order. */
  lemma GeneratedFileDecodes(values: seq<int>)
    requires ValidDraws(values)
    ensures |EncodeAll(values)| % 2 == 0
    ensures ScanSamples(EncodeAll(values)).Success?
    ensures Samples(EncodeAll(values)) == values
  {
    SamplesOfEncodeAll(values);
  }

  /** No generated sample is void, and each written pair encodes its value. */
  lemma GeneratedSamples(values: seq<int>, k: nat)
    requires ValidDraws(values) && k < |values|
    ensures EncodeAll(values)[2 * k..2 * k + 2] == EncodeInt16(values[k])
    ensures Samples(EncodeAll(values))[k] != VoidValue
    ensures DecodeInt16(EncodeAll(values)[2 * k], EncodeAll(values)[2 * k + 1]) == values[k]
  {
    EncodeAllAt(values, k);
    SamplesOfEncodeAll(values);
    DecodeEncode(values[k]);
  }
}
