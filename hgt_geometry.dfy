/**
  * Geometry of one SRTM "HGT" tile as the `hgt2sql` parser derives it from
  * the tile's file name: the centre of the bottom-left sample, the four
  * corners of the area the samples cover, and the strict inside test that
  * guards elevation lookups. Coordinates are exact reals; the source's
  * floating-point rounding is not modelled.
  */
module HgtGeometry {
  import opened Wrappers
  import opened Text

  /** Samples per column and per row; fixed in the `hgt2sql` parser. */
  const SampleLat: nat := 1201
  const SampleLng: nat := 1201

  datatype Point = Point(lat: real, lng: real)

  /** The four corners in the order the parser lists them. */
  datatype Corners = Corners(bottomLeft: Point, topLeft: Point, topRight: Point, bottomRight: Point)
  {
    /** The corners as the 4-element list the storage managers index into. */
    function AsList(): (l: seq<Point>)
      ensures |l| == 4 && l[0] == bottomLeft && l[1] == topLeft && l[2] == topRight && l[3] == bottomRight
    {
      [bottomLeft, topLeft, topRight, bottomRight]
    }
  }

  datatype HgtError =
    | NotAnOpenFile                   // the constructor was not given an open file
    | MalformedFilename(name: string) // the match is None and `.groups()` raises AttributeError; the name is the model's own payload
    | PointOutside(pos: Point, filename: string)

  /** What the parser's constructor is handed: an open file (with its name), or anything else. */
  datatype FileArg = OpenFile(name: string) | NotAFile

  /** The parser's state, fixed at construction. */
  datatype HgtParser = HgtParser(filename: string, bottomLeftCenter: Point, corners: Corners)

  /** Width in degrees of one sample square: the reciprocal of the samples per row. */
  function SquareWidth(): (w: real)
    ensures w * SampleLng as real == 1.0 && 0.0 < w < 1.0
  {
    1.0 / SampleLng as real
  }

  function SquareHeight(): (h: real)
    ensures h * SampleLat as real == 1.0 && 0.0 < h < 1.0
  {
    1.0 / SampleLat as real
  }

  /** Width of the covered area: one degree plus a square on each side. */
  function AreaWidth(): (a: real)
    ensures a > 1.0 && (a - 1.0) * SampleLng as real == 2.0
  {
    1.0 + 2.0 * SquareWidth()
  }

  function AreaHeight(): (a: real)
    ensures a > 1.0 && (a - 1.0) * SampleLat as real == 2.0
  {
    1.0 + 2.0 * SquareHeight()
  }

  predicate IsHemisphereNS(c: char) { c == 'N' || c == 'S' }
  predicate IsHemisphereWE(c: char) { c == 'W' || c == 'E' }

  /**
    * The file name matches `^[NS][0-9]+[WE][0-9]+.*`: `i` is the index of the
    * longitude letter and `j` the end of a non-empty run of longitude digits.
    */
  ghost predicate MatchesTilePattern(name: string)
  {
    exists i, j :: MatchesAt(name, i, j)
  }

  ghost predicate MatchesAt(name: string, i: int, j: int)
  {
    && 1 < i && i + 1 < j <= |name|
    && IsHemisphereNS(name[0])
    && AllDigits(name[1..i])
    && IsHemisphereWE(name[i])
    && AllDigits(name[i + 1..j])
  }

  /**
    * The regular expression match of the parser: the hemisphere letters and
    * the two greedy digit runs; the latitude is negated for 'S' and the
    * longitude for 'W'; whatever follows the second run is ignored. A name
    * that does not match makes the source raise `AttributeError`, which the
    * model records as `MalformedFilename` with the rejected name attached.
    */
  function ParseBottomLeftCenter(name: string): (r: Result<Point, HgtError>)
    ensures r.Failure? ==> r.error == MalformedFilename(name)
  {
    if |name| == 0 || !IsHemisphereNS(name[0]) then Failure(MalformedFilename(name))
    else
      var i := 1 + Span(name[1..], IsDigit);
      if i == 1 || i >= |name| || !IsHemisphereWE(name[i]) then Failure(MalformedFilename(name))
      else
        var n := Span(name[i + 1..], IsDigit);
        if n == 0 then Failure(MalformedFilename(name))
        else
          assert name[1..i] == name[1..][..i - 1];
          assert name[i + 1..i + 1 + n] == name[i + 1..][..n];
          var lat := DigitsValue(name[1..i]) as real;
          var lng := DigitsValue(name[i + 1..i + 1 + n]) as real;
          Success(Point(if name[0] == 'S' then -lat else lat, if name[i] == 'W' then -lng else lng))
  }

  /** The covered rectangle: the bottom-left corner lies half a square below and left of the centre. */
  function CornersOf(center: Point): Corners
  {
    var bottomLeft := Point(center.lat - SquareHeight() / 2.0, center.lng - SquareWidth() / 2.0);
    var topLeft := Point(bottomLeft.lat + AreaHeight(), bottomLeft.lng);
    var topRight := Point(topLeft.lat, topLeft.lng + AreaWidth());
    var bottomRight := Point(bottomLeft.lat, bottomLeft.lng + AreaWidth());
    Corners(bottomLeft, topLeft, topRight, bottomRight)
  }

  /** Strictly between the bottom-left and the top-right corner on both axes. */
  predicate IsInside(c: Corners, p: Point)
  {
    c.bottomLeft.lat < p.lat && c.bottomLeft.lng < p.lng && p.lat < c.topRight.lat && p.lng < c.topRight.lng
  }

  /** The constructor: refuses anything but an open file, then parses the file's base name once. */
  function NewParser(file: FileArg): (r: Result<HgtParser, HgtError>)
  {
    match file
    case NotAFile => Failure(NotAnOpenFile)
    case OpenFile(path) =>
      var filename := Basename(path);
      match ParseBottomLeftCenter(filename)
      case Failure(e) => Failure(e)
      case Success(center) => Success(HgtParser(filename, center, CornersOf(center)))
  }

  /** The only behaviour of `get_elevation`: it raises for a point outside the tile and otherwise returns nothing. */
  function GetElevation(parser: HgtParser, pos: Point): Outcome<HgtError>
  {
    if !IsInside(parser.corners, pos) then Fail(PointOutside(pos, parser.filename)) else Pass
  }

  // ---------------------------------------------------------------------------
  // File names

  /** The conventional tile name, e.g. `N00E010` or `S20W003`, with the given digit widths. */
  function TileName(lat: int, lng: int, latWidth: nat, lngWidth: nat): string
  {
    (if lat < 0 then "S" else "N") + Padded(Abs(lat), latWidth)
    + (if lng < 0 then "W" else "E") + Padded(Abs(lng), lngWidth)
  }

  function Abs(x: int): nat { if x < 0 then -x else x }

  function Signed(negative: bool, digits: string): real
    requires AllDigits(digits)
  {
    if negative then -(DigitsValue(digits) as real) else DigitsValue(digits) as real
  }

  /** A name built from its four parts parses back to the numbers its digit runs spell. */
  lemma {:induction false} ParseParts(h1: char, d1: string, h2: char, d2: string, suffix: string)
    requires IsHemisphereNS(h1) && IsHemisphereWE(h2)
    requires |d1| >= 1 && AllDigits(d1) && |d2| >= 1 && AllDigits(d2)
    requires suffix == [] || !IsDigit(suffix[0])
    ensures ParseBottomLeftCenter([h1] + d1 + [h2] + d2 + suffix)
         == Success(Point(Signed(h1 == 'S', d1), Signed(h2 == 'W', d2)))
  {
    var name := [h1] + d1 + [h2] + d2 + suffix;
    var i := 1 + |d1|;
    assert name[0] == h1;
    assert name[1..] == d1 + ([h2] + d2 + suffix);
    SpanPrefix(d1, [h2] + d2 + suffix, IsDigit);
    assert name[i] == h2;
    assert name[i + 1..] == d2 + suffix;
    SpanPrefix(d2, suffix, IsDigit);
    assert name[1..i] == d1;
    assert name[i + 1..i + 1 + |d2|] == d2;
    ParseOfRuns(name, i, |d2|);
  }

  /** The parse of a name whose hemisphere letters and digit runs sit at the given places. */
  lemma ParseOfRuns(name: string, i: nat, n: nat)
    requires |name| > 0 && IsHemisphereNS(name[0])
    requires 1 < i < |name| && i == 1 + Span(name[1..], IsDigit) && IsHemisphereWE(name[i])
    requires 0 < n && n == Span(name[i + 1..], IsDigit)
    ensures AllDigits(name[1..i]) && AllDigits(name[i + 1..i + 1 + n])
    ensures ParseBottomLeftCenter(name)
         == Success(Point(Signed(name[0] == 'S', name[1..i]), Signed(name[i] == 'W', name[i + 1..i + 1 + n])))
  {
    assert name[1..i] == name[1..][..i - 1];
    assert name[i + 1..i + 1 + n] == name[i + 1..][..n];
  }

  /**
    * Parsing inverts naming: the name of the tile whose bottom-left centre is
    * (`lat`, `lng`), followed by anything that does not start with a digit
    * (such as `.hgt`), parses back to that centre.
    */
  lemma ParseTileName(lat: int, lng: int, latWidth: nat, lngWidth: nat, suffix: string)
    requires suffix == [] || !IsDigit(suffix[0])
    ensures ParseBottomLeftCenter(TileName(lat, lng, latWidth, lngWidth) + suffix)
         == Success(Point(lat as real, lng as real))
  {
    var h1 := if lat < 0 then 'S' else 'N';
    var h2 := if lng < 0 then 'W' else 'E';
    var d1 := Padded(Abs(lat), latWidth);
    var d2 := Padded(Abs(lng), lngWidth);
    var name := TileName(lat, lng, latWidth, lngWidth) + suffix;
    assert name == [h1] + d1 + [h2] + d2 + suffix;
    ParseParts(h1, d1, h2, d2, suffix);
    PaddedValue(Abs(lat), latWidth);
    PaddedValue(Abs(lng), lngWidth);
    assert Signed(h1 == 'S', d1) == lat as real;
    assert Signed(h2 == 'W', d2) == lng as real;
  }

  /** The parse succeeds exactly on the names that match `^[NS][0-9]+[WE][0-9]+.*`. */
  lemma ParseAcceptsPattern(name: string)
    ensures ParseBottomLeftCenter(name).Success? <==> MatchesTilePattern(name)
  {
    if ParseBottomLeftCenter(name).Success? {
      ParsedNameMatches(name);
    }
    if MatchesTilePattern(name) {
      var i, j :| MatchesAt(name, i, j);
      MatchingNameParses(name, i, j);
    }
  }

  lemma ParsedNameMatches(name: string)
    requires ParseBottomLeftCenter(name).Success?
    ensures MatchesTilePattern(name)
  {
    var i := 1 + Span(name[1..], IsDigit);
    var n := Span(name[i + 1..], IsDigit);
    assert name[1..i] == name[1..][..i - 1];
    assert name[i + 1..i + 1 + n] == name[i + 1..][..n];
    assert MatchesAt(name, i, i + 1 + n);
  }

  lemma MatchingNameParses(name: string, i: int, j: int)
    requires MatchesAt(name, i, j)
    ensures ParseBottomLeftCenter(name).Success?
  {
    assert name[1..] == name[1..i] + name[i..];
    SpanPrefix(name[1..i], name[i..], IsDigit);
    assert 1 + Span(name[1..], IsDigit) == i;
    assert name[i + 1..][0] == name[i + 1];
    assert IsDigit(name[i + 1..j][0]);
  }

  /** The names the source's tests use. */
  lemma ParseNorthEastExample()
    ensures ParseBottomLeftCenter("N00E010") == Success(Point(0.0, 10.0))
  {
    DigitsExamples();
    ParseExample('N', "00", 'E', "010", "N00E010");
  }

  lemma ParseSouthWestExample()
    ensures ParseBottomLeftCenter("S20W03") == Success(Point(-20.0, -3.0))
  {
    DigitsExamples();
    ParseExample('S', "20", 'W', "03", "S20W03");
  }

  lemma ParseMixedHemispheresExample()
    ensures ParseBottomLeftCenter("N01W001") == Success(Point(1.0, -1.0))
  {
    DigitsExamples();
    ParseExample('N', "01", 'W', "001", "N01W001");
  }

  lemma ParseRejectsExample()
    ensures ParseBottomLeftCenter("SF01AB001.hgt") == Failure(MalformedFilename("SF01AB001.hgt"))
  {
    var name := "SF01AB001.hgt";
    assert name[1..][0] == 'F';
  }

  lemma ParseExample(h1: char, d1: string, h2: char, d2: string, name: string)
    requires IsHemisphereNS(h1) && IsHemisphereWE(h2)
    requires |d1| >= 1 && AllDigits(d1) && |d2| >= 1 && AllDigits(d2)
    requires name == [h1] + d1 + [h2] + d2
    ensures ParseBottomLeftCenter(name) == Success(Point(Signed(h1 == 'S', d1), Signed(h2 == 'W', d2)))
  {
    ParseParts(h1, d1, h2, d2, "");
    assert name + "" == name;
  }

  lemma DigitsExamples()
    ensures DigitsValue("00") == 0 && DigitsValue("010") == 10 && DigitsValue("20") == 20
    ensures DigitsValue("03") == 3 && DigitsValue("01") == 1 && DigitsValue("001") == 1
  {
    assert "00"[..1] == "0" && "20"[..1] == "2" && "03"[..1] == "0" && "01"[..1] == "0";
    assert "010"[..2] == "01" && "001"[..2] == "00";
    assert "0"[..0] == "" && "2"[..0] == "";
  }

  // ---------------------------------------------------------------------------
  // Corners and the inside test

  /**
    * The corners form an axis-aligned rectangle, `AreaWidth` wide and
    * `AreaHeight` high, whose bottom-left corner is half a square below and to
    * the left of the bottom-left sample centre. The first four conjuncts are
    * `CornersOf` restated corner by corner, relative to one another; the last
    * one, that the rectangle is not degenerate, is what `CornersOf` alone
    * does not say.
    */
  lemma CornersFormRectangle(center: Point)
    ensures var c := CornersOf(center);
      && c.bottomLeft == Point(center.lat - SquareHeight() / 2.0, center.lng - SquareWidth() / 2.0)
      && c.topLeft == Point(c.bottomLeft.lat + AreaHeight(), c.bottomLeft.lng)
      && c.topRight == Point(c.topLeft.lat, c.bottomLeft.lng + AreaWidth())
      && c.bottomRight == Point(c.bottomLeft.lat, c.topRight.lng)
      && c.bottomLeft.lat < c.topLeft.lat && c.bottomLeft.lng < c.bottomRight.lng
  {
  }

  /**
    * The whole nominal 1°×1° tile north-east of the bottom-left centre, its
    * edges included, lies strictly inside the corners.
    */
  lemma TileIsInside(center: Point, p: Point)
    requires center.lat <= p.lat <= center.lat + 1.0
    requires center.lng <= p.lng <= center.lng + 1.0
    ensures IsInside(CornersOf(center), p)
  {
  }

  /** The test is strict: none of the four corners is inside, nor any point on the boundary. */
  lemma BoundaryIsOutside(center: Point, p: Point)
    requires var c := CornersOf(center);
      || ((p.lat == c.bottomLeft.lat || p.lat == c.topRight.lat) && c.bottomLeft.lng <= p.lng <= c.topRight.lng)
      || ((p.lng == c.bottomLeft.lng || p.lng == c.topRight.lng) && c.bottomLeft.lat <= p.lat <= c.topRight.lat)
    ensures !IsInside(CornersOf(center), p)
  {
  }

  /**
    * The constructor reads the centre from the base name of the file only:
    * any directory prefix, and any suffix after the digits, are ignored.
    */
  lemma NewParserFromTileName(dir: string, lat: int, lng: int, suffix: string)
    requires suffix == [] || !IsDigit(suffix[0])
    requires '/' !in suffix
    ensures var name := TileName(lat, lng, 2, 3) + suffix;
      NewParser(OpenFile(dir + "/" + name)) ==
      Success(HgtParser(name, Point(lat as real, lng as real), CornersOf(Point(lat as real, lng as real))))
  {
    var name := TileName(lat, lng, 2, 3) + suffix;
    assert '/' !in name by {
      var d1 := Padded(Abs(lat), 2);
      var d2 := Padded(Abs(lng), 3);
      assert forall k :: 0 <= k < |d1| ==> IsDigit(d1[k]);
      assert forall k :: 0 <= k < |d2| ==> IsDigit(d2[k]);
    }
    RFindAppend(dir + "/", name, '/');
    assert RFind(dir + "/", '/') == |dir| by {
      assert (dir + "/")[|dir|] == '/';
    }
    assert (dir + "/" + name)[|dir| + 1..] == name;
    ParseTileName(lat, lng, 2, 3, suffix);
  }

  /**
    * `get_elevation` raises for every point on or beyond the corners and
    * accepts every point of the nominal tile.
    */
  lemma GetElevationGuard(parser: HgtParser, p: Point)
    requires parser.corners == CornersOf(parser.bottomLeftCenter)
    ensures var c := parser.bottomLeftCenter;
      c.lat <= p.lat <= c.lat + 1.0 && c.lng <= p.lng <= c.lng + 1.0 ==> GetElevation(parser, p) == Pass
    ensures var c := parser.corners;
      p.lat <= c.bottomLeft.lat || p.lat >= c.topRight.lat || p.lng <= c.bottomLeft.lng || p.lng >= c.topRight.lng
      ==> GetElevation(parser, p) == Fail(PointOutside(p, parser.filename))
  {
    var c := parser.bottomLeftCenter;
    if c.lat <= p.lat <= c.lat + 1.0 && c.lng <= p.lng <= c.lng + 1.0 {
      TileIsInside(c, p);
    }
  }
}
