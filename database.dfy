/**
  * The storage managers: a registry that maps (driver, raster?) to a manager
  * kind, the parameters each kind derives from one elevation datum, and the
  * decisions a manager takes against the database: refuse an incompatible
  * database, create the table only when it is missing, skip void values and
  * insert a datum only when its footprint is not stored yet. The database is
  * abstract: two oracle booleans and a table of footprints; SQL text is not
  * modelled.
  */
module Database {
  import opened Wrappers
  import HgtGeometry

  // ---------------------------------------------------------------------------
  // Registry

  datatype ManagerKind = PostgresValue | PostgresRaster
  {
    /** The class attribute `TYPE`. */
    function Type(): string { "postgres" }

    /** The class attribute `USE_RASTER`. */
    predicate UsesRaster() { this == PostgresRaster }
  }

  /** The manager classes in definition order; defining a class registers it under its key. */
  const Registered: seq<ManagerKind> := [PostgresValue, PostgresRaster]

  function RegistryOf(kinds: seq<ManagerKind>): map<(string, bool), ManagerKind>
  {
    if kinds == [] then map[]
    else
      var k := kinds[|kinds| - 1];
      RegistryOf(kinds[..|kinds| - 1])[(k.Type(), k.UsesRaster()) := k]
  }

  /** `get_manager_class`: the registered kind, or the "Unknown database driver" error. */
  function GetManagerClass(driver: string, useRaster: bool): (r: Result<ManagerKind, string>)
    ensures r.Failure? ==> r.error == "Unknown database driver " + driver
  {
    var registry := RegistryOf(Registered);
    if (driver, useRaster) !in registry then Failure("Unknown database driver " + driver)
    else Success(registry[(driver, useRaster)])
  }

  /** Every registered class sits under its own key, and only registered classes do. */
  lemma {:induction false} RegistrySound(kinds: seq<ManagerKind>)
    ensures forall key :: key in RegistryOf(kinds) ==>
              RegistryOf(kinds)[key] in kinds && RegistryOf(kinds)[key].Type() == key.0 && RegistryOf(kinds)[key].UsesRaster() == key.1
    ensures forall i :: 0 <= i < |kinds| ==> (kinds[i].Type(), kinds[i].UsesRaster()) in RegistryOf(kinds)
  {
    if kinds != [] {
      var init := kinds[..|kinds| - 1];
      RegistrySound(init);
      assert forall i :: 0 <= i < |init| ==> init[i] == kinds[i];
    }
  }

  /** The lookup succeeds exactly for the postgres driver, and returns the kind with the asked raster mode. */
  lemma GetManagerClassSpec(driver: string, useRaster: bool)
    ensures GetManagerClass(driver, useRaster).Success? <==> driver == "postgres"
    ensures GetManagerClass(driver, useRaster).Success? ==>
              && GetManagerClass(driver, useRaster).value.Type() == driver
              && GetManagerClass(driver, useRaster).value.UsesRaster() == useRaster
  {
    RegistrySound(Registered);
    assert Registered[0] == PostgresValue && Registered[1] == PostgresRaster;
  }

  lemma RegistryExamples()
    ensures GetManagerClass("postgres", false) == Success(PostgresValue)
    ensures GetManagerClass("postgres", true) == Success(PostgresRaster)
    ensures GetManagerClass("couchdb", true) == Failure("Unknown database driver couchdb")
  {
    GetManagerClassSpec("postgres", false);
    GetManagerClassSpec("postgres", true);
    GetManagerClassSpec("couchdb", true);
    assert "Unknown database driver " + "couchdb" == "Unknown database driver couchdb";
  }

  // ---------------------------------------------------------------------------
  // Query parameters

  type Point = HgtGeometry.Point

  /** The elevation part of an iterator datum: one value, or a grid of rows of values. */
  datatype Elevation = Single(value: int) | Grid(rows: seq<seq<int>>)

  /** The two fields of an iterator datum the managers read: `data[3]` and `data[4]`. */
  datatype Datum = Datum(corners: seq<Point>, elevation: Elevation)

  /** What a manager reads from the parser. */
  datatype ParserInfo = ParserInfo(squareWidth: real, squareHeight: real, voidValue: int)

  datatype ValueParams = ValueParams(latMin: real, latMax: real, lngMin: real, lngMax: real, value: int)

  datatype RasterParams = RasterParams(
    width: nat, height: nat, topLeftX: real, topLeftY: real, scaleX: real, scaleY: real,
    defaultValue: int, nodataValue: int, elevationValues: seq<seq<int>>,
    minX: real, minY: real, maxX: real, maxY: real)

  datatype Params = ValueP(v: ValueParams) | RasterP(r: RasterParams)

  /** The smallest member, as Python's `min`. */
  function MinOf(xs: seq<real>): (m: real)
    requires |xs| >= 1
    ensures forall i :: 0 <= i < |xs| ==> m <= xs[i]
    ensures exists i :: 0 <= i < |xs| && xs[i] == m
  {
    if |xs| == 1 then xs[0]
    else
      var m := MinOf(xs[..|xs| - 1]);
      assert forall i :: 0 <= i < |xs| - 1 ==> xs[..|xs| - 1][i] == xs[i];
      if xs[|xs| - 1] < m then xs[|xs| - 1] else m
  }

  /** The largest member, as Python's `max`. */
  function MaxOf(xs: seq<real>): (m: real)
    requires |xs| >= 1
    ensures forall i :: 0 <= i < |xs| ==> xs[i] <= m
    ensures exists i :: 0 <= i < |xs| && xs[i] == m
  {
    if |xs| == 1 then xs[0]
    else
      var m := MaxOf(xs[..|xs| - 1]);
      assert forall i :: 0 <= i < |xs| - 1 ==> xs[..|xs| - 1][i] == xs[i];
      if xs[|xs| - 1] > m then xs[|xs| - 1] else m
  }

  function Lats(corners: seq<Point>): (l: seq<real>)
    ensures |l| == |corners| && forall i :: 0 <= i < |l| ==> l[i] == corners[i].lat
  {
    seq(|corners|, i requires 0 <= i < |corners| => corners[i].lat)
  }

  function Lngs(corners: seq<Point>): (l: seq<real>)
    ensures |l| == |corners| && forall i :: 0 <= i < |l| ==> l[i] == corners[i].lng
  {
    seq(|corners|, i requires 0 <= i < |corners| => corners[i].lng)
  }

  /**
    * The value manager's parameters: the bounding box of the corners and the
    * elevation. The box is the tightest one: it contains every corner and
    * each of its four bounds is attained by some corner.
    */
  function ValuePrepareParams(corners: seq<Point>, value: int): (p: ValueParams)
    requires |corners| >= 1
    ensures p.value == value && p.latMin <= p.latMax && p.lngMin <= p.lngMax
    ensures forall i :: 0 <= i < |corners| ==>
              p.latMin <= corners[i].lat <= p.latMax && p.lngMin <= corners[i].lng <= p.lngMax
    ensures (exists i :: 0 <= i < |corners| && corners[i].lat == p.latMin)
         && (exists i :: 0 <= i < |corners| && corners[i].lat == p.latMax)
         && (exists i :: 0 <= i < |corners| && corners[i].lng == p.lngMin)
         && (exists i :: 0 <= i < |corners| && corners[i].lng == p.lngMax)
  {
    ValueParams(MinOf(Lats(corners)), MaxOf(Lats(corners)), MinOf(Lngs(corners)), MaxOf(Lngs(corners)), value)
  }

  /**
    * The raster manager's parameters: the grid's size, the top-left corner
    * (index 1) as origin, one square per pixel with latitude descending, the
    * parser's void value as "no data", and the envelope spanned by the
    * top-left and bottom-right (index 3) corners.
    */
  function RasterPrepareParams(corners: seq<Point>, grid: seq<seq<int>>, parser: ParserInfo): (p: RasterParams)
    requires |corners| >= 4 && |grid| >= 1
    ensures p.width == |grid[0]| && p.height == |grid| && p.elevationValues == grid
    ensures p.nodataValue == parser.voidValue && p.defaultValue == 0
    ensures p.scaleX == parser.squareWidth && p.scaleY == -parser.squareHeight
    ensures p.topLeftX == corners[1].lng && p.topLeftY == corners[1].lat
    ensures p.minX == p.topLeftX && p.maxY == p.topLeftY
    ensures p.minY == corners[3].lat && p.maxX == corners[3].lng
  {
    var topLeft := corners[1];
    var bottomRight := corners[3];
    RasterParams(
      |grid[0]|, |grid|, topLeft.lng, topLeft.lat, parser.squareWidth, -1.0 * parser.squareHeight,
      0, parser.voidValue, grid,
      topLeft.lng, bottomRight.lat, bottomRight.lng, topLeft.lat)
  }

  lemma ValueParamsExample()
    ensures ValuePrepareParams([HgtGeometry.Point(2.0, 9.0), HgtGeometry.Point(5.0, 12.0),
                                HgtGeometry.Point(8.0, 6.0), HgtGeometry.Point(15.0, 11.0)], 456)
         == ValueParams(2.0, 15.0, 6.0, 12.0, 456)
  {
    var corners := [HgtGeometry.Point(2.0, 9.0), HgtGeometry.Point(5.0, 12.0), HgtGeometry.Point(8.0, 6.0), HgtGeometry.Point(15.0, 11.0)];
    var p := ValuePrepareParams(corners, 456);
    assert corners[0].lat == 2.0 && corners[3].lat == 15.0 && corners[2].lng == 6.0 && corners[1].lng == 12.0;
  }

  lemma RasterParamsExample()
    ensures var p := RasterPrepareParams(
              [HgtGeometry.Point(2.0, 9.0), HgtGeometry.Point(5.0, 12.0), HgtGeometry.Point(8.0, 6.0), HgtGeometry.Point(15.0, 11.0)],
              [[456, 87, 65], [12, 54]], ParserInfo(5.6, 8.7, -36543));
      && p.width == 3 && p.height == 2 && p.topLeftX == 12.0 && p.topLeftY == 5.0
      && p.minX == 12.0 && p.minY == 15.0 && p.maxX == 11.0 && p.maxY == 5.0
      && p.scaleX == 5.6 && p.scaleY == -8.7 && p.nodataValue == -36543 && p.defaultValue == 0
  {
  }

  /**
    * On a tile's corner rectangle both managers describe the same area: the
    * raster envelope is the value manager's bounding box.
    */
  lemma EnvelopeIsBoundingBox(center: Point, grid: seq<seq<int>>, parser: ParserInfo, value: int)
    requires |grid| >= 1
    ensures var corners := HgtGeometry.CornersOf(center).AsList();
      var box := ValuePrepareParams(corners, value);
      var raster := RasterPrepareParams(corners, grid, parser);
      && raster.minX == box.lngMin && raster.maxX == box.lngMax
      && raster.minY == box.latMin && raster.maxY == box.latMax
  {
    var c := HgtGeometry.CornersOf(center);
    HgtGeometry.CornersFormRectangle(center);
    var corners := c.AsList();
    var box := ValuePrepareParams(corners, value);
    assert box.latMin == c.bottomLeft.lat && box.latMax == c.topLeft.lat;
    assert box.lngMin == c.bottomLeft.lng && box.lngMax == c.topRight.lng;
  }

  // ---------------------------------------------------------------------------
  // Bound parameters

  datatype ParamValue = RealValue(r: real) | IntValue(i: int) | TextValue(s: string) | RowsValue(rows: seq<seq<int>>)

  /** The dictionary `prepare_params` returns. */
  function ToDict(p: Params): map<string, ParamValue>
  {
    match p
    case ValueP(v) =>
      map["lat_min" := RealValue(v.latMin), "lat_max" := RealValue(v.latMax),
          "lng_min" := RealValue(v.lngMin), "lng_max" := RealValue(v.lngMax), "value" := IntValue(v.value)]
    case RasterP(r) =>
      map["width" := IntValue(r.width), "height" := IntValue(r.height),
          "topleftx" := RealValue(r.topLeftX), "toplefty" := RealValue(r.topLeftY),
          "scalex" := RealValue(r.scaleX), "scaley" := RealValue(r.scaleY),
          "default_value" := IntValue(r.defaultValue), "nodata_value" := IntValue(r.nodataValue),
          "elevation_values" := RowsValue(r.elevationValues),
          "minx" := RealValue(r.minX), "miny" := RealValue(r.minY), "maxx" := RealValue(r.maxX), "maxy" := RealValue(r.maxY)]
  }

  /** A parameter dictionary the caller owns; `_execute` updates it in place. */
  class ParamDict {
    var entries: map<string, ParamValue>

    constructor (entries: map<string, ParamValue>)
      ensures this.entries == entries
    {
      this.entries := entries;
    }
  }

  /** The parameters `_execute` binds: the caller's, or a new empty dictionary when they are missing or empty, plus the table name. */
  function Bound(params: map<string, ParamValue>, tableName: string): (b: map<string, ParamValue>)
    ensures b.Keys == params.Keys + {"table_name"} && b["table_name"] == TextValue(tableName)
    ensures forall key :: key in params && key != "table_name" ==> b[key] == params[key]
  {
    params["table_name" := TextValue(tableName)]
  }

  // ---------------------------------------------------------------------------
  // The abstract database

  datatype Footprint = Box(latMin: real, lngMin: real, latMax: real, lngMax: real) | Envelope(minX: real, minY: real, maxX: real, maxY: real)

  datatype Payload = ValuePayload(value: int) | RasterPayload(raster: RasterParams)

  /** The footprint the exists-query tests and the row the create-query stores. */
  function FootprintOf(p: Params): Footprint
  {
    match p
    case ValueP(v) => Box(v.latMin, v.lngMin, v.latMax, v.lngMax)
    case RasterP(r) => Envelope(r.minX, r.minY, r.maxX, r.maxY)
  }

  function PayloadOf(p: Params): Payload
  {
    match p
    case ValueP(v) => ValuePayload(v.value)
    case RasterP(r) => RasterPayload(r)
  }

  datatype Query =
    | TableExistsQuery
    | TableCreateQuery
    | PostgisAvailableQuery
    | ValueExistQuery(footprint: Footprint)
    | ValueCreateQuery(footprint: Footprint, payload: Payload)

  /** The table's presence, the PostGIS extension's presence, and the stored rows by footprint. */
  datatype DbState = DbState(tableExists: bool, postgis: bool, rows: map<Footprint, Payload>)

  /** One executed query with the parameters bound to it. */
  datatype Executed = Executed(query: Query, params: map<string, ParamValue>)

  datatype DbError = NotSupported(message: string)

  const NotCompatibleMessage: string := "Database is not compatible with the provided settings"

  /** Whether the scalar a query returns is truthy. */
  function Answer(db: DbState, q: Query): bool
  {
    match q
    case TableExistsQuery => db.tableExists
    case PostgisAvailableQuery => db.postgis
    case ValueExistQuery(fp) => fp in db.rows
    case _ => false
  }

  function Effect(db: DbState, q: Query): DbState
  {
    match q
    case TableCreateQuery => db.(tableExists := true)
    case ValueCreateQuery(fp, payload) => db.(rows := db.rows[fp := payload])
    case _ => db
  }

  /** `is_compatible`: always for the value manager; for the raster manager, when PostGIS is installed. */
  predicate Compatible(kind: ManagerKind, db: DbState)
  {
    kind == PostgresValue || db.postgis
  }

  /** The queries `is_compatible` runs. */
  function CompatibilityLog(kind: ManagerKind, tableName: string): seq<Executed>
  {
    if kind == PostgresRaster then [Executed(PostgisAvailableQuery, Bound(map[], tableName))] else []
  }

  /** `prepare_environment`: its outcome, the database after it, and the queries it runs. */
  function PrepareEnvironmentSpec(kind: ManagerKind, tableName: string, db: DbState): (Outcome<DbError>, DbState, seq<Executed>)
  {
    var checks := CompatibilityLog(kind, tableName);
    if !Compatible(kind, db) then (Fail(NotSupported(NotCompatibleMessage)), db, checks)
    else
      var probe := checks + [Executed(TableExistsQuery, Bound(map[], tableName))];
      if db.tableExists then (Pass, db, probe)
      else (Pass, db.(tableExists := true), probe + [Executed(TableCreateQuery, Bound(map[], tableName))])
  }

  function CountCreates(log: seq<Executed>): nat
  {
    if log == [] then 0
    else CountCreates(log[..|log| - 1]) + (if log[|log| - 1].query == TableCreateQuery then 1 else 0)
  }

  lemma CountCreatesAppend(a: seq<Executed>, b: seq<Executed>)
    ensures CountCreates(a + b) == CountCreates(a) + CountCreates(b)
    decreases |b|
  {
    if b == [] {
      assert a + b == a;
    } else {
      assert (a + b)[..|a + b| - 1] == a + b[..|b| - 1];
      CountCreatesAppend(a, b[..|b| - 1]);
    }
  }

  /**
    * An incompatible database raises "not supported" and is left as it was;
    * otherwise the table exists afterwards and was created by exactly one
    * query if it was missing, by none if it was there.
    */
  lemma PrepareEnvironmentDecides(kind: ManagerKind, tableName: string, db: DbState)
    ensures var (r, after, log) := PrepareEnvironmentSpec(kind, tableName, db);
      && (r.Fail? <==> !Compatible(kind, db))
      && (r.Fail? ==> r.error == NotSupported(NotCompatibleMessage) && after == db && CountCreates(log) == 0)
      && (r.Pass? ==> after == db.(tableExists := true) && CountCreates(log) == (if db.tableExists then 0 else 1))
  {
    var checks := CompatibilityLog(kind, tableName);
    var probe := checks + [Executed(TableExistsQuery, Bound(map[], tableName))];
    var create := [Executed(TableCreateQuery, Bound(map[], tableName))];
    assert CountCreates(checks) == 0 by {
      if kind == PostgresRaster {
        assert checks[..0] == [];
      }
    }
    CountCreatesAppend(checks, [Executed(TableExistsQuery, Bound(map[], tableName))]);
    assert [Executed(TableExistsQuery, Bound(map[], tableName))][..0] == [];
    CountCreatesAppend(probe, create);
    assert create[..0] == [];
  }

  /** Preparing twice creates the table at most once in all. */
  lemma PrepareEnvironmentTwice(kind: ManagerKind, tableName: string, db: DbState)
    ensures var (_, once, log1) := PrepareEnvironmentSpec(kind, tableName, db);
      var (_, twice, log2) := PrepareEnvironmentSpec(kind, tableName, once);
      && twice == once
      && CountCreates(log1) + CountCreates(log2) == (if Compatible(kind, db) && !db.tableExists then 1 else 0)
  {
    PrepareEnvironmentDecides(kind, tableName, db);
    var (_, once, _) := PrepareEnvironmentSpec(kind, tableName, db);
    PrepareEnvironmentDecides(kind, tableName, once);
  }

  /** A datum whose elevation is the parser's void value; a grid is never equal to it. */
  predicate IsVoid(d: Datum, parser: ParserInfo)
  {
    d.elevation.Single? && d.elevation.value == parser.voidValue
  }

  /** The datum has the shape the manager's `prepare_params` reads. */
  predicate Fits(kind: ManagerKind, d: Datum)
  {
    match kind
    case PostgresValue => |d.corners| >= 1 && d.elevation.Single?
    case PostgresRaster => |d.corners| >= 4 && d.elevation.Grid? && |d.elevation.rows| >= 1
  }

  function PrepareParams(kind: ManagerKind, d: Datum, parser: ParserInfo): Params
    requires Fits(kind, d)
  {
    match kind
    case PostgresValue => ValueP(ValuePrepareParams(d.corners, d.elevation.value))
    case PostgresRaster => RasterP(RasterPrepareParams(d.corners, d.elevation.rows, parser))
  }

  /** Store `payload` under `footprint` unless a row is already there. */
  function InsertIfAbsent(rows: map<Footprint, Payload>, footprint: Footprint, payload: Payload): (r: map<Footprint, Payload>)
  {
    if footprint in rows then rows else rows[footprint := payload]
  }

  /** `insert_data`: the database after it and the queries it runs. */
  function InsertDataSpec(kind: ManagerKind, tableName: string, db: DbState, d: Datum, parser: ParserInfo): (DbState, seq<Executed>)
    requires Fits(kind, d)
  {
    if IsVoid(d, parser) then (db, [])
    else
      var p := PrepareParams(kind, d, parser);
      var fp := FootprintOf(p);
      var bound := Bound(ToDict(p), tableName);
      var check := [Executed(ValueExistQuery(fp), bound)];
      if fp in db.rows then (db, check)
      else (db.(rows := db.rows[fp := PayloadOf(p)]), check + [Executed(ValueCreateQuery(fp, PayloadOf(p)), bound)])
  }

  /**
    * Inserting keeps every stored row (the first datum for a footprint wins),
    * leaves the footprint stored, and adds no other row.
    */
  lemma InsertIfAbsentSpec(rows: map<Footprint, Payload>, footprint: Footprint, payload: Payload)
    ensures footprint in InsertIfAbsent(rows, footprint, payload)
    ensures InsertIfAbsent(rows, footprint, payload).Keys == rows.Keys + {footprint}
    ensures forall f :: f in rows ==> InsertIfAbsent(rows, footprint, payload)[f] == rows[f]
    ensures footprint !in rows ==> InsertIfAbsent(rows, footprint, payload)[footprint] == payload
  {
  }

  /**
    * A void datum runs no query and changes nothing; any other datum runs the
    * exists-query and then inserts exactly when its footprint was absent.
    */
  lemma InsertDataDecides(kind: ManagerKind, tableName: string, db: DbState, d: Datum, parser: ParserInfo)
    requires Fits(kind, d)
    ensures var (after, log) := InsertDataSpec(kind, tableName, db, d, parser);
      && (IsVoid(d, parser) ==> after == db && log == [])
      && (!IsVoid(d, parser) ==>
            var p := PrepareParams(kind, d, parser);
            && after == db.(rows := InsertIfAbsent(db.rows, FootprintOf(p), PayloadOf(p)))
            && |log| == (if FootprintOf(p) in db.rows then 1 else 2)
            && log[0].query == ValueExistQuery(FootprintOf(p)))
  {
  }

  /** Inserting the same datum twice leaves the same database as inserting it once. */
  lemma InsertDataIdempotent(kind: ManagerKind, tableName: string, db: DbState, d: Datum, parser: ParserInfo)
    requires Fits(kind, d)
    ensures var once := InsertDataSpec(kind, tableName, db, d, parser).0;
      InsertDataSpec(kind, tableName, once, d, parser).0 == once
  {
    InsertDataDecides(kind, tableName, db, d, parser);
  }

  // ---------------------------------------------------------------------------
  // The manager object

  class Manager {
    const kind: ManagerKind
    const tableName: string
    /** A connection is held (`self.connection` is truthy). */
    var connected: bool
    /** Connections opened with `engine.connect()`, and closes on exit. */
    var connects: nat
    var closes: nat
    var db: DbState
    var log: seq<Executed>

    constructor (kind: ManagerKind, tableName: string, db: DbState)
      ensures this.kind == kind && this.tableName == tableName && this.db == db
      ensures !connected && connects == 0 && closes == 0 && log == []
    {
      this.kind := kind;
      this.tableName := tableName;
      this.db := db;
      connected := false;
      connects := 0;
      closes := 0;
      log := [];
    }

    /** `__enter__`: connects only when no connection is held. */
    method Enter()
      modifies this
      ensures connected && connects == old(connects) + (if old(connected) then 0 else 1)
      ensures closes == old(closes) && db == old(db) && log == old(log)
    {
      if !connected {
        connected := true;
        connects := connects + 1;
      }
    }

    /** `__exit__`: closes a held connection; the closed connection stays assigned. */
    method Exit()
      modifies this
      ensures closes == old(closes) + (if connected then 1 else 0)
      ensures connected == old(connected) && connects == old(connects) && db == old(db) && log == old(log)
    {
      if connected {
        closes := closes + 1;
      }
    }

    /**
      * `execute`/`_execute`: `params or {}` replaces a missing or empty
      * dictionary by a new one; otherwise the caller's dictionary itself
      * gains `table_name`.
      */
    method Execute(q: Query, params: ParamDict?) returns (answer: bool)
      requires connected
      modifies this, params
      ensures answer == Answer(old(db), q) && db == Effect(old(db), q)
      ensures params != null && old(params.entries) != map[] ==>
                && params.entries == Bound(old(params.entries), tableName)
                && log == old(log) + [Executed(q, params.entries)]
      ensures params != null && old(params.entries) == map[] ==> params.entries == map[]
      ensures (params == null || old(params.entries) == map[]) ==> log == old(log) + [Executed(q, Bound(map[], tableName))]
      ensures connected && connects == old(connects) && closes == old(closes)
    {
      var bound: map<string, ParamValue>;
      if params == null || params.entries == map[] {
        bound := Bound(map[], tableName);
      } else {
        params.entries := Bound(params.entries, tableName);
        bound := params.entries;
      }
      answer := Answer(db, q);
      db := Effect(db, q);
      log := log + [Executed(q, bound)];
    }

    method IsCompatible() returns (ok: bool)
      requires connected
      modifies this
      ensures ok == Compatible(kind, old(db)) && db == old(db)
      ensures log == old(log) + CompatibilityLog(kind, tableName)
      ensures connected && connects == old(connects) && closes == old(closes)
    {
      if kind == PostgresRaster {
        ok := Execute(PostgisAvailableQuery, null);
      } else {
        ok := true;
      }
    }

    /** `prepare_environment`. */
    method PrepareEnvironment() returns (r: Outcome<DbError>)
      requires connected
      modifies this
      ensures var (outcome, after, queries) := PrepareEnvironmentSpec(kind, tableName, old(db));
        r == outcome && db == after && log == old(log) + queries
      ensures connected && connects == old(connects) && closes == old(closes)
    {
      var compatible := IsCompatible();
      if !compatible {
        return Fail(NotSupported(NotCompatibleMessage));
      }
      var exists_ := Execute(TableExistsQuery, null);
      if !exists_ {
        var _ := Execute(TableCreateQuery, null);
      }
      r := Pass;
    }

    /** `insert_data`: skip a void value; otherwise check, then insert if absent, with one parameter dictionary for both queries. */
    method InsertData(d: Datum, parser: ParserInfo)
      requires connected && Fits(kind, d)
      modifies this
      ensures var (after, queries) := InsertDataSpec(kind, tableName, old(db), d, parser);
        db == after && log == old(log) + queries
      ensures connected && connects == old(connects) && closes == old(closes)
    {
      if d.elevation.Single? && d.elevation.value == parser.voidValue {
        return;
      }
      var p := PrepareParams(kind, d, parser);
      var params := new ParamDict(ToDict(p));
      assert "value" in params.entries || "width" in params.entries;
      var valueExists := Execute(ValueExistQuery(FootprintOf(p)), params);
      if !valueExists {
        assert Bound(params.entries, tableName) == params.entries;
        var _ := Execute(ValueCreateQuery(FootprintOf(p), PayloadOf(p)), params);
      }
    }
  }
}
