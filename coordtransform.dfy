/**
 * The empirical datum-shift formulas between WGS84, GCJ-02 ("Mars") and
 * BD-09 ("Baidu"), and the WGS84 <-> Web Mercator projection
 * (QArcGISLib/GISCoordTrans/Coordtransform.cs).
 *
 * Every operation of the source is straight-line arithmetic over constants
 * and returns a fresh two-element array; here each is a function returning a
 * `Coord`. Arithmetic is over `real`: double rounding is not modelled. The
 * transcendental functions of System.Math are not defined here: they are the
 * fields of a `Transcendentals` value that every operation receives, so every
 * property proved below holds whatever those functions compute.
 */
module Coordtransform {

  /** The System.Math functions the formulas call, left uninterpreted. */
  datatype Transcendentals = Transcendentals(
    sin: real -> real,
    cos: real -> real,
    sqrt: real -> real,
    atan2: (real, real) -> real,
    log: real -> real,
    tan: real -> real,
    exp: real -> real,
    atan: real -> real)

  /** The two-element array the source returns: element 0 is `x`, element 1 is `y`. */
  datatype Coord = Coord(x: real, y: real)

  /** Math.PI, written with the digits of the double it denotes. */
  const PI: real := 3.141592653589793
  /** x_PI = PI * 3000.0 / 180.0 */
  const X_PI: real := PI * 3000.0 / 180.0
  /** Semi-major axis of the Krasovsky ellipsoid, in meters. */
  const A: real := 6378245.0
  /** Eccentricity squared of the Krasovsky ellipsoid. */
  const EE: real := 0.00669342162296594323

  /** The fixed bias BD-09 adds to a GCJ-02 coordinate after its polar step. */
  const BD_DX: real := 0.0065
  const BD_DY: real := 0.006

  /** Math.Abs. */
  function Abs(v: real): (r: real)
    ensures r >= 0.0 && (r == v || r == -v)
  {
    if v < 0.0 then -v else v
  }

  /**
   * Real division made total. IEEE division by zero yields an infinity or NaN;
   * the model yields 0 instead. The divisors it guards are the curvature
   * scales below, which are nonzero for any faithful sin/sqrt/cos.
   */
  function Quot(n: real, d: real): (r: real)
    ensures d != 0.0 ==> r * d == n
  {
    if d == 0.0 then 0.0 else n / d
  }

  // ---------------------------------------------------------------------------
  // The "outside mainland China" guard (Out_of_china)
  // ---------------------------------------------------------------------------

  /** True unless 73.66 < lng < 135.05 and 3.86 < lat < 53.55. */
  predicate OutOfChina(lng: real, lat: real) {
    !(lng > 73.66 && lng < 135.05 && lat > 3.86 && lat < 53.55)
  }

  /** The bounding box is open: every point on one of its four edges counts as outside. */
  lemma BoxEdgesAreOutside(lng: real, lat: real)
    requires lng == 73.66 || lng == 135.05 || lat == 3.86 || lat == 53.55
    ensures OutOfChina(lng, lat)
  {
  }

  // ---------------------------------------------------------------------------
  // The empirical offset series (TransformLatitude / TransformLongitude)
  // ---------------------------------------------------------------------------

  /** The latitude series at a point already shifted to the reference origin (105E, 35N). */
  function TransformLatitude(m: Transcendentals, longitude: real, latitude: real): real {
    var ret := -100.0 + 2.0 * longitude + 3.0 * latitude + 0.2 * latitude * latitude
               + 0.1 * longitude * latitude + 0.2 * m.sqrt(Abs(longitude));
    var ret := ret + (20.0 * m.sin(6.0 * longitude * PI) + 20.0 * m.sin(2.0 * longitude * PI)) * 2.0 / 3.0;
    var ret := ret + (20.0 * m.sin(latitude * PI) + 40.0 * m.sin(latitude / 3.0 * PI)) * 2.0 / 3.0;
    ret + (160.0 * m.sin(latitude / 12.0 * PI) + 320.0 * m.sin(latitude * PI / 30.0)) * 2.0 / 3.0
  }

  /** The longitude series at a point already shifted to the reference origin (105E, 35N). */
  function TransformLongitude(m: Transcendentals, longitude: real, latitude: real): real {
    var ret := 300.0 + longitude + 2.0 * latitude + 0.1 * longitude * longitude
               + 0.1 * longitude * latitude + 0.1 * m.sqrt(Abs(longitude));
    var ret := ret + (20.0 * m.sin(6.0 * longitude * PI) + 20.0 * m.sin(2.0 * longitude * PI)) * 2.0 / 3.0;
    var ret := ret + (20.0 * m.sin(longitude * PI) + 40.0 * m.sin(longitude / 3.0 * PI)) * 2.0 / 3.0;
    ret + (150.0 * m.sin(longitude / 12.0 * PI) + 300.0 * m.sin(longitude / 30.0 * PI)) * 2.0 / 3.0
  }

  /**
   * At the reference origin itself the harmonic bands and the square-root term
   * vanish (for a sin and sqrt that vanish at 0), leaving the base offsets
   * -100 and 300.
   */
  lemma SeriesAtReferenceOrigin(m: Transcendentals)
    requires m.sin(0.0) == 0.0 && m.sqrt(0.0) == 0.0
    ensures TransformLatitude(m, 0.0, 0.0) == -100.0
    ensures TransformLongitude(m, 0.0, 0.0) == 300.0
  {
  }

  /**
   * Every harmonic band of the longitude series is a function of the shifted
   * longitude alone: the series depends on the latitude only through its two
   * linear terms 2*lat and 0.1*lon*lat.
   */
  lemma LongitudeSeriesLinearInLatitude(m: Transcendentals, lon: real, lat1: real, lat2: real)
    ensures TransformLongitude(m, lon, lat1) - TransformLongitude(m, lon, lat2)
         == (2.0 + 0.1 * lon) * (lat1 - lat2)
  {
  }

  /** The divisor that turns the latitude series into degrees: meridian radius of curvature times PI over 180. */
  function LatitudeScale(m: Transcendentals, lat: real): real {
    var radlat := lat / 180.0 * PI;
    var s := m.sin(radlat);
    var magic := 1.0 - EE * s * s;
    var sqrtmagic := m.sqrt(magic);
    Quot(A * (1.0 - EE), magic * sqrtmagic) * PI
  }

  /** The divisor that turns the longitude series into degrees: parallel radius times PI over 180. */
  function LongitudeScale(m: Transcendentals, lat: real): real {
    var radlat := lat / 180.0 * PI;
    var s := m.sin(radlat);
    var magic := 1.0 - EE * s * s;
    var sqrtmagic := m.sqrt(magic);
    Quot(A, sqrtmagic) * m.cos(radlat) * PI
  }

  /**
   * The (dlng, dlat) shift both GCJ-02 legs compute from the point they are
   * given: the two series evaluated at (lng - 105, lat - 35), scaled to
   * degrees with the ellipsoid at the input latitude.
   */
  function Offset(m: Transcendentals, lng: real, lat: real): Coord {
    var dlat := TransformLatitude(m, lng - 105.0, lat - 35.0);
    var dlng := TransformLongitude(m, lng - 105.0, lat - 35.0);
    Coord(Quot(dlng * 180.0, LongitudeScale(m, lat)), Quot(dlat * 180.0, LatitudeScale(m, lat)))
  }

  /**
   * The latitude shift comes from TransformLatitude and the longitude shift
   * from TransformLongitude, both taken at (lng - 105, lat - 35): each shift
   * is zero exactly when its own series is zero there (or its scale is).
   */
  lemma OffsetFollowsSeries(m: Transcendentals, lng: real, lat: real)
    ensures Offset(m, lng, lat).y == 0.0
        <==> TransformLatitude(m, lng - 105.0, lat - 35.0) == 0.0 || LatitudeScale(m, lat) == 0.0
    ensures Offset(m, lng, lat).x == 0.0
        <==> TransformLongitude(m, lng - 105.0, lat - 35.0) == 0.0 || LongitudeScale(m, lat) == 0.0
  {
    var dlat := TransformLatitude(m, lng - 105.0, lat - 35.0);
    var dlng := TransformLongitude(m, lng - 105.0, lat - 35.0);
    var ls := LatitudeScale(m, lat);
    var gs := LongitudeScale(m, lat);
    if ls != 0.0 && Offset(m, lng, lat).y == 0.0 {
      assert Offset(m, lng, lat).y * ls == dlat * 180.0;
    }
    if gs != 0.0 && Offset(m, lng, lat).x == 0.0 {
      assert Offset(m, lng, lat).x * gs == dlng * 180.0;
    }
  }

  // ---------------------------------------------------------------------------
  // WGS84 <-> GCJ-02
  // ---------------------------------------------------------------------------

  /** WGS84 to GCJ-02: add the offset inside the box, identity outside it. */
  function Wgs84toGcj02(m: Transcendentals, lng: real, lat: real): (r: Coord)
    ensures OutOfChina(lng, lat) ==> r == Coord(lng, lat)
  {
    if OutOfChina(lng, lat) then
      Coord(lng, lat)
    else
      var d := Offset(m, lng, lat);
      var mglat := lat + d.y;
      var mglng := lng + d.x;
      Coord(mglng, mglat)
  }

  /**
   * GCJ-02 to WGS84, the approximate inverse: the same forward offset is
   * computed from the given point and the shifted point is reflected back
   * through it. Identity outside the box.
   */
  function Gcj02toWGS84(m: Transcendentals, longitude: real, latitude: real): (r: Coord)
    ensures OutOfChina(longitude, latitude) ==> r == Coord(longitude, latitude)
  {
    if OutOfChina(longitude, latitude) then
      Coord(longitude, latitude)
    else
      var d := Offset(m, longitude, latitude);
      var mglat := latitude + d.y;
      var mglng := longitude + d.x;
      Coord(longitude * 2.0 - mglng, latitude * 2.0 - mglat)
  }

  /**
   * Inside the box both legs move the point by the same offset, in opposite
   * directions.
   */
  lemma GcjLegsShareOffset(m: Transcendentals, lng: real, lat: real)
    requires !OutOfChina(lng, lat)
    ensures Wgs84toGcj02(m, lng, lat).x - lng == Offset(m, lng, lat).x
    ensures Wgs84toGcj02(m, lng, lat).y - lat == Offset(m, lng, lat).y
    ensures lng - Gcj02toWGS84(m, lng, lat).x == Offset(m, lng, lat).x
    ensures lat - Gcj02toWGS84(m, lng, lat).y == Offset(m, lng, lat).y
  {
  }

  /**
   * The inverse is a reflection through the input point: the two results sum
   * to exactly twice the input, inside the box and (trivially) outside it.
   */
  lemma ReflectionIdentity(m: Transcendentals, lng: real, lat: real)
    ensures Wgs84toGcj02(m, lng, lat).x + Gcj02toWGS84(m, lng, lat).x == 2.0 * lng
    ensures Wgs84toGcj02(m, lng, lat).y + Gcj02toWGS84(m, lng, lat).y == 2.0 * lat
  {
  }

  /**
   * The approximate inverse is exact at a point exactly when the offset it
   * recomputes at the shifted point equals the offset that produced it.
   */
  lemma GcjRoundTripExactIff(m: Transcendentals, lng: real, lat: real)
    requires !OutOfChina(lng, lat)
    requires !OutOfChina(Wgs84toGcj02(m, lng, lat).x, Wgs84toGcj02(m, lng, lat).y)
    ensures var g := Wgs84toGcj02(m, lng, lat);
            Gcj02toWGS84(m, g.x, g.y) == Coord(lng, lat) <==> Offset(m, g.x, g.y) == Offset(m, lng, lat)
  {
    var g := Wgs84toGcj02(m, lng, lat);
    var back := Gcj02toWGS84(m, g.x, g.y);
    assert back.x == g.x - Offset(m, g.x, g.y).x;
    assert back.y == g.y - Offset(m, g.x, g.y).y;
    assert g.x == lng + Offset(m, lng, lat).x;
    assert g.y == lat + Offset(m, lng, lat).y;
  }

  // ---------------------------------------------------------------------------
  // GCJ-02 <-> BD-09
  // ---------------------------------------------------------------------------

  /**
   * The polar step shared by both BD-09 legs: radius corrected by
   * sign * 0.00002 * sin(y * x_PI), angle by sign * 0.000003 * cos(x * x_PI),
   * then back to Cartesian.
   */
  function PolarStep(m: Transcendentals, x: real, y: real, sign: real): Coord {
    var z := m.sqrt(x * x + y * y) + sign * 0.00002 * m.sin(y * X_PI);
    var theta := m.atan2(y, x) + sign * 0.000003 * m.cos(x * X_PI);
    Coord(z * m.cos(theta), z * m.sin(theta))
  }

  /** BD-09 to GCJ-02: remove the bias, then the polar step with the corrections subtracted. */
  function Bd09toGcj02(m: Transcendentals, bdLon: real, bdLat: real): Coord {
    var x := bdLon - 0.0065;
    var y := bdLat - 0.006;
    var z := m.sqrt(x * x + y * y) - 0.00002 * m.sin(y * X_PI);
    var theta := m.atan2(y, x) - 0.000003 * m.cos(x * X_PI);
    Coord(z * m.cos(theta), z * m.sin(theta))
  }

  /** GCJ-02 to BD-09: the polar step with the corrections added, then add the bias. */
  function Gcj02toBd09(m: Transcendentals, lng: real, lat: real): Coord {
    var z := m.sqrt(lng * lng + lat * lat) + 0.00002 * m.sin(lat * X_PI);
    var theta := m.atan2(lat, lng) + 0.000003 * m.cos(lng * X_PI);
    Coord(z * m.cos(theta) + 0.0065, z * m.sin(theta) + 0.006)
  }

  /**
   * Bd09toGcj02 subtracts the bias (0.0065, 0.006) before a polar step that
   * subtracts the corrections; Gcj02toBd09 adds exactly that bias after a
   * polar step that adds them.
   */
  lemma BaiduLegsAreBiasedPolarSteps(m: Transcendentals, x: real, y: real)
    ensures Bd09toGcj02(m, x, y) == PolarStep(m, x - BD_DX, y - BD_DY, -1.0)
    ensures Gcj02toBd09(m, x, y) == Coord(PolarStep(m, x, y, 1.0).x + BD_DX, PolarStep(m, x, y, 1.0).y + BD_DY)
  {
  }

  /**
   * The biases cancel exactly: BD-09 -> GCJ-02 undoes GCJ-02 -> BD-09 at a
   * point exactly when the subtracting polar step undoes the adding one there.
   */
  lemma BaiduRoundTripIffPolarInverse(m: Transcendentals, lng: real, lat: real)
    ensures var b := Gcj02toBd09(m, lng, lat);
            var p := PolarStep(m, lng, lat, 1.0);
            Bd09toGcj02(m, b.x, b.y) == PolarStep(m, p.x, p.y, -1.0)
  {
    var b := Gcj02toBd09(m, lng, lat);
    var p := PolarStep(m, lng, lat, 1.0);
    BaiduLegsAreBiasedPolarSteps(m, lng, lat);
    BaiduLegsAreBiasedPolarSteps(m, b.x, b.y);
    assert b.x - BD_DX == p.x && b.y - BD_DY == p.y;
  }

  // ---------------------------------------------------------------------------
  // WGS84 <-> BD-09, defined as compositions through GCJ-02
  // ---------------------------------------------------------------------------

  /** WGS84 to BD-09 = Gcj02toBd09 after Wgs84toGcj02. */
  function Wgs84tobd09(m: Transcendentals, lon: real, lat: real): Coord {
    var gcj02 := Wgs84toGcj02(m, lon, lat);
    Gcj02toBd09(m, gcj02.x, gcj02.y)
  }

  /** BD-09 to WGS84 = Gcj02toWGS84 after Bd09toGcj02. */
  function Bd09towgs84(m: Transcendentals, bdLon: real, bdLat: real): Coord {
    var gcj02 := Bd09toGcj02(m, bdLon, bdLat);
    Gcj02toWGS84(m, gcj02.x, gcj02.y)
  }

  /** Outside the box the WGS84 leg is the identity, so WGS84 -> BD-09 is GCJ-02 -> BD-09 applied to the input. */
  lemma Wgs84tobd09OutsideChina(m: Transcendentals, lon: real, lat: real)
    requires OutOfChina(lon, lat)
    ensures Wgs84tobd09(m, lon, lat) == Gcj02toBd09(m, lon, lat)
  {
  }

  /** When the intermediate GCJ-02 point is outside the box, BD-09 -> WGS84 is BD-09 -> GCJ-02. */
  lemma Bd09towgs84OutsideChina(m: Transcendentals, bdLon: real, bdLat: real)
    requires OutOfChina(Bd09toGcj02(m, bdLon, bdLat).x, Bd09toGcj02(m, bdLon, bdLat).y)
    ensures Bd09towgs84(m, bdLon, bdLat) == Bd09toGcj02(m, bdLon, bdLat)
  {
  }

  /**
   * Where the polar steps invert each other at the GCJ-02 point, the
   * WGS84 -> BD-09 -> WGS84 round trip is the WGS84 -> GCJ-02 -> WGS84 one:
   * the Baidu leg adds no error of its own.
   */
  lemma BaiduLegCancelsInRoundTrip(m: Transcendentals, lon: real, lat: real)
    requires var g := Wgs84toGcj02(m, lon, lat);
             var p := PolarStep(m, g.x, g.y, 1.0);
             PolarStep(m, p.x, p.y, -1.0) == g
    ensures var b := Wgs84tobd09(m, lon, lat);
            var g := Wgs84toGcj02(m, lon, lat);
            Bd09towgs84(m, b.x, b.y) == Gcj02toWGS84(m, g.x, g.y)
  {
    var g := Wgs84toGcj02(m, lon, lat);
    BaiduRoundTripIffPolarInverse(m, g.x, g.y);
  }

  // ---------------------------------------------------------------------------
  // WGS84 <-> Web Mercator
  // ---------------------------------------------------------------------------

  /** The x scale of the forward projection. */
  const MERC_X_SCALE: real := 20037508.342789
  /** The y scale of the forward projection: a different constant from the x one. */
  const MERC_Y_SCALE: real := 20037508.34789
  /** The scale of the inverse projection, on both axes. */
  const MERC_INV_SCALE: real := 20037508.34

  /** The forward y before its scale: ln(tan((90 + lat) * PI / 360)) in degrees. */
  function MercatorYDegrees(m: Transcendentals, lat: real): real {
    m.log(m.tan((90.0 + lat) * PI / 360.0)) / (PI / 180.0)
  }

  /** WGS84 longitude/latitude to Web Mercator meters. */
  function WGS84ToMercator(m: Transcendentals, lon: real, lat: real): Coord {
    var x := lon * 20037508.342789 / 180.0;
    var y := m.log(m.tan((90.0 + lat) * PI / 360.0)) / (PI / 180.0);
    var y := y * 20037508.34789 / 180.0;
    Coord(x, y)
  }

  /** The inverse's intermediate y: meters back to degrees with the inverse scale. */
  function InverseYDegrees(mercatorY: real): real {
    mercatorY / 20037508.34 * 180.0
  }

  /** The inverse's last step: Gudermannian of a latitude-in-degrees, back to degrees. */
  function InverseLatitude(m: Transcendentals, yDegrees: real): real {
    180.0 / PI * (2.0 * m.atan(m.exp(yDegrees * PI / 180.0)) - PI / 2.0)
  }

  /** Web Mercator meters to WGS84 longitude/latitude. */
  function WebMercator2WGS84(m: Transcendentals, mercatorX: real, mercatorY: real): Coord {
    var x := mercatorX / 20037508.34 * 180.0;
    var y := mercatorY / 20037508.34 * 180.0;
    var y := 180.0 / PI * (2.0 * m.atan(m.exp(y * PI / 180.0)) - PI / 2.0);
    Coord(x, y)
  }

  /**
   * The x round trip does not return the longitude: the forward and inverse
   * scales differ, so it multiplies the longitude by
   * 20037508.342789 / 20037508.34, and changes every nonzero longitude.
   */
  lemma MercatorXRoundTripScales(m: Transcendentals, lon: real, lat: real)
    ensures var p := WGS84ToMercator(m, lon, lat);
            WebMercator2WGS84(m, p.x, p.y).x == lon * (MERC_X_SCALE / MERC_INV_SCALE)
    ensures var p := WGS84ToMercator(m, lon, lat);
            WebMercator2WGS84(m, p.x, p.y).x == lon <==> lon == 0.0
  {
  }

  /**
   * The y round trip feeds the inverse formula a latitude-in-degrees scaled by
   * 20037508.34789 / 20037508.34 rather than the forward one: the bias the
   * mismatched y constant introduces.
   */
  lemma MercatorYRoundTripBias(m: Transcendentals, lon: real, lat: real)
    ensures InverseYDegrees(WGS84ToMercator(m, lon, lat).y)
         == MercatorYDegrees(m, lat) * (MERC_Y_SCALE / MERC_INV_SCALE)
    ensures WebMercator2WGS84(m, 0.0, WGS84ToMercator(m, lon, lat).y).y
         == InverseLatitude(m, MercatorYDegrees(m, lat) * (MERC_Y_SCALE / MERC_INV_SCALE))
  {
    var yd := MercatorYDegrees(m, lat);
    var py := WGS84ToMercator(m, lon, lat).y;
    assert py == yd * MERC_Y_SCALE / 180.0;
    var yi := InverseYDegrees(py);
    assert yi == yd * (MERC_Y_SCALE / MERC_INV_SCALE);
    assert WebMercator2WGS84(m, 0.0, py).y == InverseLatitude(m, yi);
  }

  /**
   * The two forward scales differ: a point whose unscaled y equals its
   * longitude is projected to different x and y.
   */
  lemma MercatorAxesScaledDifferently(m: Transcendentals, lon: real, lat: real)
    requires MercatorYDegrees(m, lat) == lon && lon != 0.0
    ensures WGS84ToMercator(m, lon, lat).x != WGS84ToMercator(m, lon, lat).y
  {
  }
}
