/**
  * The HGT sample scanner of the import worker (`_import_file`), identical in
  * the `hgt2sql` and `gmaltcli` packages: the file is read two bytes at a
  * time, each pair is a big-endian signed 16-bit sample, and the scan counts
  * zero, void (-32768) and other samples, collects the distinct other
  * values and counts runs of equal consecutive samples. Also here: the
  * fixed-width file-name reader `_extract_coordinates_from_filename`, which
  * tests the latitude letter where it means the longitude letter.
  */
module HgtScan {
  import opened Wrappers
  import opened Text
  import HgtGeometry

  type Byte = b: int | 0 <= b < 256

  /** The HGT "no data" sample. */
  const VoidValue: int := -32768

  predicate IsInt16(v: int) { -32768 <= v <= 32767 }

  datatype ScanError =
    | NotAFloat(text: string)  // `float()` refused a slice of the file name
    | StructError              // `struct.unpack('>h', ...)` was given a single trailing byte

  /** The counters `_import_file` logs at the end of a scan. */
  datatype ScanStats = ScanStats(samples: nat, zero: nat, empty: nat, nbvalue: nat, values: set<int>, changes: nat)

  datatype ScanReport = ScanReport(startLat: real, startLng: real, stats: ScanStats)

  // ---------------------------------------------------------------------------
  // Big-endian signed 16-bit samples

  /** `struct.unpack('>h', [hi, lo])`: the unsigned value, less 65536 when the sign bit is set. */
  function DecodeInt16(hi: Byte, lo: Byte): (v: int)
    ensures IsInt16(v)
    ensures v < 0 <==> hi >= 128
  {
    var u := hi * 256 + lo;
    if u >= 32768 then u - 65536 else u
  }

  /** `struct.pack('>h', v)`: two's complement, high byte first. */
  function EncodeInt16(v: int): (b: seq<Byte>)
    requires IsInt16(v)
    ensures |b| == 2
  {
    var u := if v < 0 then v + 65536 else v;
    [u / 256, u % 256]
  }

  /** Decoding undoes encoding on every 16-bit value. */
  lemma DecodeEncode(v: int)
    requires IsInt16(v)
    ensures DecodeInt16(EncodeInt16(v)[0], EncodeInt16(v)[1]) == v
  {
    var u := if v < 0 then v + 65536 else v;
    assert u == (u / 256) * 256 + u % 256;
  }

  /** Encoding undoes decoding on every pair of bytes. */
  lemma EncodeDecode(hi: Byte, lo: Byte)
    ensures EncodeInt16(DecodeInt16(hi, lo)) == [hi, lo]
  {
    var u := hi * 256 + lo;
    assert (if DecodeInt16(hi, lo) < 0 then DecodeInt16(hi, lo) + 65536 else DecodeInt16(hi, lo)) == u;
    assert u / 256 == hi && u % 256 == lo;
  }

  /** The samples of an even-length file, in file order. */
  function Samples(data: seq<Byte>): (s: seq<int>)
    requires |data| % 2 == 0
    ensures |s| == |data| / 2
  {
    if data == [] then []
    else
      var prefix := data[..|data| - 2];
      Samples(prefix) + [DecodeInt16(data[|data| - 2], data[|data| - 1])]
  }

  /** Sample `k` is the `k`-th pair of bytes, high byte first. */
  lemma {:induction false} SamplesAt(data: seq<Byte>)
    requires |data| % 2 == 0
    ensures forall k :: 0 <= k < |data| / 2 ==> Samples(data)[k] == DecodeInt16(data[2 * k], data[2 * k + 1])
  {
    if data != [] {
      var prefix := data[..|data| - 2];
      SamplesAt(prefix);
      assert forall k :: 0 <= k < |prefix| / 2 ==> prefix[2 * k] == data[2 * k] && prefix[2 * k + 1] == data[2 * k + 1];
    }
  }

  /** The bytes `struct.pack('>h', ...)` writes for a list of samples, in order. */
  function EncodeAll(values: seq<int>): (b: seq<Byte>)
    requires forall k :: 0 <= k < |values| ==> IsInt16(values[k])
    ensures |b| == 2 * |values|
  {
    if values == [] then [] else EncodeAll(values[..|values| - 1]) + EncodeInt16(values[|values| - 1])
  }

  /** Bytes `2k` and `2k + 1` of an encoded list are the encoding of its `k`-th value. */
  lemma {:induction false} EncodeAllAt(values: seq<int>, k: nat)
    requires forall j :: 0 <= j < |values| ==> IsInt16(values[j])
    requires k < |values|
    ensures EncodeAll(values)[2 * k..2 * k + 2] == EncodeInt16(values[k])
  {
    var n := |values|;
    var init := values[..n - 1];
    if k < n - 1 {
      EncodeAllAt(init, k);
      assert EncodeAll(values)[2 * k..2 * k + 2] == EncodeAll(init)[2 * k..2 * k + 2];
    } else {
      assert EncodeAll(values)[2 * k..] == EncodeInt16(values[k]);
    }
  }

  /** Reading back an encoded list gives the list. */
  lemma {:induction false} SamplesOfEncodeAll(values: seq<int>)
    requires forall k :: 0 <= k < |values| ==> IsInt16(values[k])
    ensures Samples(EncodeAll(values)) == values
  {
    if values != [] {
      var n := |values|;
      var init := values[..n - 1];
      var b := EncodeAll(values);
      assert b[..|b| - 2] == EncodeAll(init);
      SamplesOfEncodeAll(init);
      DecodeEncode(values[n - 1]);
    }
  }

  // ---------------------------------------------------------------------------
  // What the scan computes, as functions of the sample sequence

  function CountZero(s: seq<int>): nat
  {
    if s == [] then 0 else CountZero(s[..|s| - 1]) + (if s[|s| - 1] == 0 then 1 else 0)
  }

  function CountVoid(s: seq<int>): nat
  {
    if s == [] then 0 else CountVoid(s[..|s| - 1]) + (if s[|s| - 1] == VoidValue then 1 else 0)
  }

  predicate IsValue(x: int) { x != 0 && x != VoidValue }

  function CountValue(s: seq<int>): nat
  {
    if s == [] then 0 else CountValue(s[..|s| - 1]) + (if IsValue(s[|s| - 1]) then 1 else 0)
  }

  function DistinctValues(s: seq<int>): set<int>
  {
    set x | x in s && IsValue(x)
  }

  /** Runs of equal consecutive samples, counted as the scan does: one more whenever a sample differs from the one before. */
  function RunCount(s: seq<int>): nat
  {
    if s == [] then 0
    else RunCount(s[..|s| - 1]) + (if |s| == 1 || s[|s| - 1] != s[|s| - 2] then 1 else 0)
  }

  /** Positions whose sample differs from its predecessor. */
  function ChangePoints(s: seq<int>): set<nat>
  {
    set k: nat | 1 <= k < |s| && ChangesAt(s, k)
  }

  predicate ChangesAt(s: seq<int>, k: nat)
    requires 1 <= k < |s|
  {
    s[k] != s[k - 1]
  }

  function StatsOf(s: seq<int>): ScanStats
  {
    ScanStats(|s|, CountZero(s), CountVoid(s), CountValue(s), DistinctValues(s), RunCount(s))
  }

  /** Every sample is counted exactly once: as zero, as void or as a value. */
  lemma {:induction false} CountsPartition(s: seq<int>)
    ensures CountZero(s) + CountVoid(s) + CountValue(s) == |s|
  {
    if s != [] {
      CountsPartition(s[..|s| - 1]);
    }
  }

  /** The zero and void counters are the multiplicities of 0 and -32768 among the samples. */
  lemma {:induction false} CountsAreMultiplicities(s: seq<int>)
    ensures CountZero(s) == multiset(s)[0]
    ensures CountVoid(s) == multiset(s)[VoidValue]
  {
    if s != [] {
      var init := s[..|s| - 1];
      assert s == init + [s[|s| - 1]];
      CountsAreMultiplicities(init);
    }
  }

  lemma DistinctValuesSnoc(s: seq<int>, x: int)
    ensures DistinctValues(s + [x]) == DistinctValues(s) + (if IsValue(x) then {x} else {})
  {
  }

  /** The set of distinct values never has more members than there were value samples. */
  lemma {:induction false} DistinctValuesBounded(s: seq<int>)
    ensures |DistinctValues(s)| <= CountValue(s)
  {
    if s != [] {
      var init := s[..|s| - 1];
      assert s == init + [s[|s| - 1]];
      DistinctValuesSnoc(init, s[|s| - 1]);
      DistinctValuesBounded(init);
    }
  }

  /** A file that is not empty has one run plus one per change point; an empty file has none. */
  lemma {:induction false} RunCountIsChanges(s: seq<int>)
    ensures RunCount(s) == if s == [] then 0 else 1 + |ChangePoints(s)|
  {
    if |s| > 1 {
      var init := s[..|s| - 1];
      RunCountIsChanges(init);
      var last := |s| - 1;
      assert ChangePoints(s) == ChangePoints(init) + (if s[last] != s[last - 1] then {last} else {});
    } else if |s| == 1 {
      assert ChangePoints(s) == {};
    }
  }

  // ---------------------------------------------------------------------------
  // The file name reader

  predicate IsNumber(text: string) { |text| >= 1 && AllDigits(text) }

  /**
    * `_extract_coordinates_from_filename` as written: the latitude is the
    * number in characters 1-2, negated for 'S'; the longitude is the number
    * from character 4 on, negated when the FIRST character is 'W' (the
    * source tests `lat_order` a second time where `lng_order` is meant).
    */
  function ExtractCoordinates(filename: string): (r: Result<(real, real), ScanError>)
    ensures r.Success? <==> IsNumber(Slice(filename, 1, 3)) && IsNumber(Slice(filename, 4, |filename|))
    ensures !IsNumber(Slice(filename, 1, 3)) ==> r == Failure(NotAFloat(Slice(filename, 1, 3)))
    ensures r.Success? && r.value.0 < 0.0 ==> Slice(filename, 0, 1) == "S"
    ensures r.Success? && r.value.1 < 0.0 ==> Slice(filename, 0, 1) == "W"
  {
    var latOrder := Slice(filename, 0, 1);
    var latText := Slice(filename, 1, 3);
    if !IsNumber(latText) then Failure(NotAFloat(latText))
    else
      var lat := if latOrder == "S" then -(DigitsValue(latText) as real) else DigitsValue(latText) as real;
      var lngText := Slice(filename, 4, |filename|);
      if !IsNumber(lngText) then Failure(NotAFloat(lngText))
      else
        var lng := if latOrder == "W" then -(DigitsValue(lngText) as real) else DigitsValue(lngText) as real;
        Success((lat, lng))
  }

  /** The same reader with the evident intent: the longitude is negated for a 'W' in character 3. */
  function ExtractCoordinatesFixed(filename: string): (r: Result<(real, real), ScanError>)
    ensures r.Success? <==> IsNumber(Slice(filename, 1, 3)) && IsNumber(Slice(filename, 4, |filename|))
    ensures !IsNumber(Slice(filename, 1, 3)) ==> r == Failure(NotAFloat(Slice(filename, 1, 3)))
    ensures r.Success? && r.value.0 < 0.0 ==> Slice(filename, 0, 1) == "S"
    ensures r.Success? && r.value.1 < 0.0 ==> Slice(filename, 3, 4) == "W"
  {
    var latOrder := Slice(filename, 0, 1);
    var latText := Slice(filename, 1, 3);
    if !IsNumber(latText) then Failure(NotAFloat(latText))
    else
      var lat := if latOrder == "S" then -(DigitsValue(latText) as real) else DigitsValue(latText) as real;
      var lngOrder := Slice(filename, 3, 4);
      var lngText := Slice(filename, 4, |filename|);
      if !IsNumber(lngText) then Failure(NotAFloat(lngText))
      else
        var lng := if lngOrder == "W" then -(DigitsValue(lngText) as real) else DigitsValue(lngText) as real;
        Success((lat, lng))
  }

  /** As written, a tile name (which starts with 'N' or 'S') never yields a negative longitude. */
  lemma LongitudeNeverNegated(filename: string)
    requires |filename| >= 1 && (filename[0] == 'N' || filename[0] == 'S')
    ensures ExtractCoordinates(filename).Success? ==> ExtractCoordinates(filename).value.1 >= 0.0
  {
    assert Slice(filename, 0, 1) == [filename[0]];
  }

  lemma {:induction false} DecimalShort(n: nat)
    requires n < 100
    ensures |Decimal(n)| <= 2
  {
  }

  /** Both readers on a name made of a hemisphere letter, two digits, a hemisphere letter and digits. */
  lemma ExtractParts(h1: char, d1: string, h2: char, d2: string)
    requires h1 == 'N' || h1 == 'S'
    requires |d1| == 2 && AllDigits(d1) && |d2| >= 1 && AllDigits(d2)
    ensures ExtractCoordinatesFixed([h1] + d1 + [h2] + d2)
         == Success((HgtGeometry.Signed(h1 == 'S', d1), HgtGeometry.Signed(h2 == 'W', d2)))
    ensures ExtractCoordinates([h1] + d1 + [h2] + d2)
         == Success((HgtGeometry.Signed(h1 == 'S', d1), HgtGeometry.Signed(false, d2)))
  {
    var name := [h1] + d1 + [h2] + d2;
    assert Slice(name, 0, 1) == [h1];
    assert Slice(name, 1, 3) == d1;
    assert Slice(name, 3, 4) == [h2];
    assert Slice(name, 4, |name|) == d2;
  }

  /** A tile name with a latitude below 100 has exactly two latitude digits. */
  lemma TileNameShape(lat: int, lng: int)
    requires -100 < lat < 100
    ensures |Padded(HgtGeometry.Abs(lat), 2)| == 2
    ensures HgtGeometry.TileName(lat, lng, 2, 3)
         == [if lat < 0 then 'S' else 'N'] + Padded(HgtGeometry.Abs(lat), 2)
            + [if lng < 0 then 'W' else 'E'] + Padded(HgtGeometry.Abs(lng), 3)
  {
    DecimalShort(HgtGeometry.Abs(lat));
  }

  /** The two signed numbers the digit runs of a tile name spell. */
  lemma TileNameNumbers(lat: int, lng: int)
    ensures HgtGeometry.Signed(lat < 0, Padded(HgtGeometry.Abs(lat), 2)) == lat as real
    ensures HgtGeometry.Signed(lng < 0, Padded(HgtGeometry.Abs(lng), 3)) == lng as real
    ensures HgtGeometry.Signed(false, Padded(HgtGeometry.Abs(lng), 3)) == HgtGeometry.Abs(lng) as real
  {
    PaddedValue(HgtGeometry.Abs(lat), 2);
    PaddedValue(HgtGeometry.Abs(lng), 3);
  }

  /** On a conventional tile name, with two latitude digits, the corrected reader gives back the tile's coordinates. */
  lemma ExtractFixedOnTileName(lat: int, lng: int)
    requires -100 < lat < 100
    ensures ExtractCoordinatesFixed(HgtGeometry.TileName(lat, lng, 2, 3)) == Success((lat as real, lng as real))
  {
    TileNameShape(lat, lng);
    ExtractParts(if lat < 0 then 'S' else 'N', Padded(HgtGeometry.Abs(lat), 2),
                 if lng < 0 then 'W' else 'E', Padded(HgtGeometry.Abs(lng), 3));
    TileNameNumbers(lat, lng);
  }

  /** On the same names the reader as written drops the longitude's sign. */
  lemma ExtractOnTileName(lat: int, lng: int)
    requires -100 < lat < 100
    ensures ExtractCoordinates(HgtGeometry.TileName(lat, lng, 2, 3)) == Success((lat as real, HgtGeometry.Abs(lng) as real))
  {
    TileNameShape(lat, lng);
    ExtractParts(if lat < 0 then 'S' else 'N', Padded(HgtGeometry.Abs(lat), 2),
                 if lng < 0 then 'W' else 'E', Padded(HgtGeometry.Abs(lng), 3));
    TileNameNumbers(lat, lng);
  }

  /** The corrected reader agrees with the regular-expression parser of `hgt.py` on every two-digit-latitude tile name. */
  lemma FixedAgreesWithParser(lat: int, lng: int)
    requires -100 < lat < 100
    ensures var name := HgtGeometry.TileName(lat, lng, 2, 3);
      && ExtractCoordinatesFixed(name).Success?
      && HgtGeometry.ParseBottomLeftCenter(name).Success?
      && ExtractCoordinatesFixed(name).value.0 == HgtGeometry.ParseBottomLeftCenter(name).value.lat
      && ExtractCoordinatesFixed(name).value.1 == HgtGeometry.ParseBottomLeftCenter(name).value.lng
  {
    var name := HgtGeometry.TileName(lat, lng, 2, 3);
    ExtractFixedOnTileName(lat, lng);
    HgtGeometry.ParseTileName(lat, lng, 2, 3, "");
    assert name + "" == name;
  }

  /** The case that shows the defect: `N00W010` lies west of Greenwich, but the reader returns +10. */
  lemma WestExample()
    ensures ExtractCoordinates("N00W010") == Success((0.0, 10.0))
    ensures ExtractCoordinatesFixed("N00W010") == Success((0.0, -10.0))
  {
    assert HgtGeometry.TileName(0, -10, 2, 3) == "N00W010" by {
      assert Decimal(0) == "0" && Decimal(10) == "10";
      assert Padded(0, 2) == "00" && Padded(10, 3) == "010";
    }
    ExtractOnTileName(0, -10);
    ExtractFixedOnTileName(0, -10);
  }

  // ---------------------------------------------------------------------------
  // The scan

  /** The counters of a whole file, or the unpack error an odd trailing byte raises. */
  function ScanSamples(data: seq<Byte>): (r: Result<ScanStats, ScanError>)
    ensures r.Success? <==> |data| % 2 == 0
    ensures r.Success? ==> r.value.samples == |data| / 2
  {
    if |data| % 2 != 0 then Failure(StructError) else Success(StatsOf(Samples(data)))
  }

  /** The report for a start point already read (or its error) and the bytes of the file. */
  function Report(start: Result<(real, real), ScanError>, data: seq<Byte>): Result<ScanReport, ScanError>
  {
    match start
    case Failure(e) => Failure(e)
    case Success(p) =>
      match ScanSamples(data)
      case Failure(e) => Failure(e)
      case Success(stats) => Success(ScanReport(p.0, p.1, stats))
  }

  /**
    * What `_import_file` prints and logs for the file at `filepath` whose
    * bytes are `data` (it returns `None`): the start point from the file-name
    * reader as written, then the counters of the scan.
    */
  function ScanResult(filepath: string, data: seq<Byte>): Result<ScanReport, ScanError>
  {
    Report(ExtractCoordinates(SplitExt(Basename(filepath)).0), data)
  }

  /** The same import with the corrected file-name reader. */
  function ScanResultFixed(filepath: string, data: seq<Byte>): Result<ScanReport, ScanError>
  {
    Report(ExtractCoordinatesFixed(SplitExt(Basename(filepath)).0), data)
  }

  /** The last sample read so far, the scan's `previous`. */
  function Last(s: seq<int>): Option<int>
  {
    if s == [] then None else Some(s[|s| - 1])
  }

  lemma SamplesSnoc(data: seq<Byte>, pos: nat)
    requires pos % 2 == 0 && pos + 2 <= |data|
    ensures Samples(data[..pos + 2]) == Samples(data[..pos]) + [DecodeInt16(data[pos], data[pos + 1])]
  {
    assert data[..pos + 2][..pos] == data[..pos];
  }

  /** One more sample, as the loop body accounts for it. */
  function Advance(st: ScanStats, previous: Option<int>, x: int): ScanStats
  {
    ScanStats(
      st.samples + 1,
      if x == 0 then st.zero + 1 else st.zero,
      if x == VoidValue then st.empty + 1 else st.empty,
      if IsValue(x) then st.nbvalue + 1 else st.nbvalue,
      if IsValue(x) then st.values + {x} else st.values,
      if previous == Some(x) then st.changes else st.changes + 1)
  }

  /** The counters of a longer prefix are those of the shorter one advanced by the new sample. */
  lemma StatsSnoc(s: seq<int>, x: int)
    ensures StatsOf(s + [x]) == Advance(StatsOf(s), Last(s), x)
  {
    assert (s + [x])[..|s|] == s;
    DistinctValuesSnoc(s, x);
  }

  /**
    * The read loop of `_import_file`: two bytes per step until the read comes
    * back empty; a single trailing byte makes the unpack raise.
    */
  method ReadSamples(data: seq<Byte>) returns (r: Result<ScanStats, ScanError>)
    ensures r == ScanSamples(data)
  {
    var i, empty, zero, nbvalue, changes := 0, 0, 0, 0, 0;
    var values: set<int> := {};
    var previous: Option<int> := None;
    var pos := 0;
    ghost var seen: seq<int> := [];
    assert data[..pos] == [];
    while pos < |data|
      invariant pos <= |data| && pos == 2 * |seen|
      invariant seen == Samples(data[..pos])
      invariant ScanStats(i, zero, empty, nbvalue, values, changes) == StatsOf(seen)
      invariant previous == Last(seen)
      decreases |data| - pos
    {
      // `file.read(2)` returns one byte at the end of an odd-length file
      if pos + 2 > |data| {
        assert |data| == 2 * |seen| + 1;
        return Failure(StructError);
      }
      var altitude := DecodeInt16(data[pos], data[pos + 1]);
      SamplesSnoc(data, pos);
      StatsSnoc(seen, altitude);
      assert Last(seen + [altitude]) == Some(altitude);
      if previous.None? || altitude != previous.value {
        previous := Some(altitude);
        changes := changes + 1;
      }
      if altitude == 0 {
        zero := zero + 1;
      } else if altitude == VoidValue {
        empty := empty + 1;
      } else {
        nbvalue := nbvalue + 1;
        values := values + {altitude};
      }
      i := i + 1;
      seen := seen + [altitude];
      pos := pos + 2;
    }
    assert data[..pos] == data;
    r := Success(ScanStats(i, zero, empty, nbvalue, values, changes));
  }

  /** `_import_file`: the tile's start point from the file name, then the scan of its bytes. */
  method ImportFile(filepath: string, data: seq<Byte>) returns (r: Result<ScanReport, ScanError>)
    ensures r == ScanResult(filepath, data)
  {
    var filename := SplitExt(Basename(filepath)).0;
    var start := ExtractCoordinates(filename);
    if start.Failure? {
      return Failure(start.error);
    }
    var stats := ReadSamples(data);
    if stats.Failure? {
      return Failure(stats.error);
    }
    r := Success(ScanReport(start.value.0, start.value.1, stats.value));
  }

  /** The base name of `dir/<tile name>.hgt`, without its extension, is the tile name. */
  lemma TileFileStem(dir: string, lat: int, lng: int)
    ensures var name := HgtGeometry.TileName(lat, lng, 2, 3);
      SplitExt(Basename(dir + "/" + name + ".hgt")).0 == name
  {
    var name := HgtGeometry.TileName(lat, lng, 2, 3);
    TileNameHasNoSlash(lat, lng);
    assert dir + "/" + name + ".hgt" == dir + "/" + (name + ".hgt");
    BasenameAfterSlash(dir, name + ".hgt");
    assert RFind(name, '/') < 0 < |name| && name[0] != '.';
    SplitExtOfExtension(name, ".hgt");
  }

  /** A tile name holds no '/' and starts with its hemisphere letter. */
  lemma TileNameHasNoSlash(lat: int, lng: int)
    ensures var name := HgtGeometry.TileName(lat, lng, 2, 3);
      '/' !in name && |name| >= 1 && (name[0] == 'N' || name[0] == 'S')
  {
    var d1 := Padded(HgtGeometry.Abs(lat), 2);
    var d2 := Padded(HgtGeometry.Abs(lng), 3);
    assert forall k :: 0 <= k < |d1| ==> IsDigit(d1[k]);
    assert forall k :: 0 <= k < |d2| ==> IsDigit(d2[k]);
  }

  /** `os.path.basename` of `dir/file` is `file` when `file` holds no '/'. */
  lemma BasenameAfterSlash(dir: string, file: string)
    requires '/' !in file
    ensures Basename(dir + "/" + file) == file
  {
    RFindAppend(dir + "/", file, '/');
    assert RFind(dir + "/", '/') == |dir| by {
      assert (dir + "/")[|dir|] == '/';
    }
    assert (dir + "/" + file)[|dir| + 1..] == file;
  }

  /**
    * Importing `dir/<tile name>.hgt` starts at the tile's latitude and the
    * MAGNITUDE of its longitude (the reader as written drops the sign), and
    * reports the counters of its samples, or the unpack error of an odd byte.
    */
  lemma ImportTileFile(dir: string, lat: int, lng: int, data: seq<Byte>)
    requires -100 < lat < 100
    ensures var name := HgtGeometry.TileName(lat, lng, 2, 3);
      ScanResult(dir + "/" + name + ".hgt", data)
      == if |data| % 2 != 0 then Failure(StructError)
         else Success(ScanReport(lat as real, HgtGeometry.Abs(lng) as real, StatsOf(Samples(data))))
  {
    TileFileStem(dir, lat, lng);
    ExtractOnTileName(lat, lng);
  }

  /** With the corrected reader the same import starts at the tile's own coordinates. */
  lemma ImportTileFileFixed(dir: string, lat: int, lng: int, data: seq<Byte>)
    requires -100 < lat < 100
    ensures var name := HgtGeometry.TileName(lat, lng, 2, 3);
      ScanResultFixed(dir + "/" + name + ".hgt", data)
      == if |data| % 2 != 0 then Failure(StructError)
         else Success(ScanReport(lat as real, lng as real, StatsOf(Samples(data))))
  {
    TileFileStem(dir, lat, lng);
    ExtractFixedOnTileName(lat, lng);
  }
}
