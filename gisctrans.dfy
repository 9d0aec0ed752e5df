/**
 * The coordinate-system dispatcher (QArcGISLib/GISCoordTrans/GISCTrans.cs):
 * out-parameter wrappers around the Coordtransform formulas, the
 * (source, target) pair selection of CoorTrans, which writes its result back
 * into the caller's point, and the in-place vertex loop over a point
 * collection.
 */
module GISCTrans {
  import opened QEnum
  import opened Coordtransform

  // ---------------------------------------------------------------------------
  // The point and point-collection objects the dispatcher updates
  // ---------------------------------------------------------------------------

  /** An engine point: two coordinates updated in place by PutCoords. */
  class Point {
    var X: real
    var Y: real

    constructor (x: real, y: real)
      ensures X == x && Y == y
    {
      X := x;
      Y := y;
    }

    /** Overwrites both coordinates. */
    method PutCoords(x: real, y: real)
      modifies this
      ensures X == x && Y == y
    {
      X := x;
      Y := y;
    }
  }

  /** An engine point collection: an indexed sequence of vertices. */
  class PointCollection {
    var points: seq<Coord>

    constructor (pts: seq<Coord>)
      ensures points == pts
    {
      points := pts;
    }

    function PointCount(): nat
      reads this
    {
      |points|
    }

    /** Copies vertex `j` into `pt`. */
    method QueryPoint(j: nat, pt: Point)
      requires j < |points|
      modifies pt
      ensures pt.X == points[j].x && pt.Y == points[j].y
    {
      pt.PutCoords(points[j].x, points[j].y);
    }

    /** Copies the coordinates of `pt` into vertex `j`; every other vertex is kept. */
    method UpdatePoint(j: nat, pt: Point)
      requires j < |points|
      modifies this
      ensures points == old(points)[j := Coord(pt.X, pt.Y)]
    {
      points := points[j := Coord(pt.X, pt.Y)];
    }
  }

  // ---------------------------------------------------------------------------
  // The out-parameter wrappers
  // ---------------------------------------------------------------------------

  method WGS84toMars(m: Transcendentals, xSrc: real, ySrc: real) returns (xTar: real, yTar: real)
    ensures Coord(xTar, yTar) == Wgs84toGcj02(m, xSrc, ySrc)
  {
    var arrGCJ02 := Wgs84toGcj02(m, xSrc, ySrc);
    xTar := arrGCJ02.x;
    yTar := arrGCJ02.y;
  }

  method WGS84toBaidu(m: Transcendentals, xSrc: real, ySrc: real) returns (xTar: real, yTar: real)
    ensures Coord(xTar, yTar) == Wgs84tobd09(m, xSrc, ySrc)
  {
    var arrBd09 := Wgs84tobd09(m, xSrc, ySrc);
    xTar := arrBd09.x;
    yTar := arrBd09.y;
  }

  method Mars2WGS84(m: Transcendentals, xSrc: real, ySrc: real) returns (xTar: real, yTar: real)
    ensures Coord(xTar, yTar) == Gcj02toWGS84(m, xSrc, ySrc)
  {
    var arrWGS84 := Gcj02toWGS84(m, xSrc, ySrc);
    xTar := arrWGS84.x;
    yTar := arrWGS84.y;
  }

  method Mars2Baidu(m: Transcendentals, xSrc: real, ySrc: real) returns (xTar: real, yTar: real)
    ensures Coord(xTar, yTar) == Gcj02toBd09(m, xSrc, ySrc)
  {
    var arrBd09 := Gcj02toBd09(m, xSrc, ySrc);
    xTar := arrBd09.x;
    yTar := arrBd09.y;
  }

  method Baidu2WGS84(m: Transcendentals, xSrc: real, ySrc: real) returns (xTar: real, yTar: real)
    ensures Coord(xTar, yTar) == Bd09towgs84(m, xSrc, ySrc)
  {
    var arrWGS84 := Bd09towgs84(m, xSrc, ySrc);
    xTar := arrWGS84.x;
    yTar := arrWGS84.y;
  }

  method Baidu2Mars(m: Transcendentals, xSrc: real, ySrc: real) returns (xTar: real, yTar: real)
    ensures Coord(xTar, yTar) == Bd09toGcj02(m, xSrc, ySrc)
  {
    var arrGCJ02 := Bd09toGcj02(m, xSrc, ySrc);
    xTar := arrGCJ02.x;
    yTar := arrGCJ02.y;
  }

  /**
   * WGS84 to Web Mercator as the source writes it: `x_tar` is assigned the
   * projected x and then overwritten with the projected y, and `y_tar` keeps
   * its initial 0.
   */
  method WGS84ToWebMercator(m: Transcendentals, longSrc: real, latSrc: real) returns (xTar: real, yTar: real)
    ensures xTar == WGS84ToMercator(m, longSrc, latSrc).y
    ensures yTar == 0.0
  {
    xTar := 0.0;
    yTar := 0.0;
    var xy := WGS84ToMercator(m, longSrc, latSrc);
    xTar := xy.x;
    xTar := xy.y;
  }

  method WebMercator2WGS84(m: Transcendentals, xSrc: real, ySrc: real) returns (longTar: real, latTar: real)
    ensures Coord(longTar, latTar) == Coordtransform.WebMercator2WGS84(m, xSrc, ySrc)
  {
    longTar := 0.0;
    latTar := 0.0;
    var lonlat := Coordtransform.WebMercator2WGS84(m, xSrc, ySrc);
    longTar := lonlat.x;
    latTar := lonlat.y;
  }

  // ---------------------------------------------------------------------------
  // The pair selection of CoorTrans
  // ---------------------------------------------------------------------------

  /** The eight (source, target) pairs CoorTrans has a branch for. */
  predicate Routed(src: ECoordSys, tar: ECoordSys) {
    (src == WGS84 && tar == MARS) || (src == WGS84 && tar == BAIDU)
    || (src == MARS && tar == WGS84) || (src == MARS && tar == BAIDU)
    || (src == BAIDU && tar == WGS84) || (src == BAIDU && tar == MARS)
    || (src == WEBMERCATOR && tar == WGS84) || (src == WGS84 && tar == WEBMERCATOR)
  }

  /**
   * The coordinates CoorTrans writes back for a point at (x, y). The outputs
   * start at (0, 0) and only a routed pair assigns them.
   */
  function Converted(m: Transcendentals, x: real, y: real, src: ECoordSys, tar: ECoordSys): (r: Coord)
    ensures !Routed(src, tar) ==> r == Coord(0.0, 0.0)
  {
    if src == WGS84 && tar == MARS then Wgs84toGcj02(m, x, y)
    else if src == WGS84 && tar == BAIDU then Wgs84tobd09(m, x, y)
    else if src == MARS && tar == WGS84 then Gcj02toWGS84(m, x, y)
    else if src == MARS && tar == BAIDU then Gcj02toBd09(m, x, y)
    else if src == BAIDU && tar == WGS84 then Bd09towgs84(m, x, y)
    else if src == BAIDU && tar == MARS then Bd09toGcj02(m, x, y)
    else if src == WEBMERCATOR && tar == WGS84 then Coordtransform.WebMercator2WGS84(m, x, y)
    else if src == WGS84 && tar == WEBMERCATOR then Coord(WGS84ToMercator(m, x, y).y, 0.0)
    else Coord(0.0, 0.0)
  }

  /** Exactly eight of the sixteen pairs are routed; an identity pair never is. */
  lemma RoutedPairsCount()
    ensures |set s: ECoordSys, t: ECoordSys | Routed(s, t) :: (s, t)| == 8
    ensures forall s: ECoordSys :: !Routed(s, s)
  {
    var routed := set s: ECoordSys, t: ECoordSys | Routed(s, t) :: (s, t);
    assert routed == {(WGS84, MARS), (WGS84, BAIDU), (MARS, WGS84), (MARS, BAIDU),
                      (BAIDU, WGS84), (BAIDU, MARS), (WEBMERCATOR, WGS84), (WGS84, WEBMERCATOR)};
  }

  /** A point "converted" to its own system is moved to the origin. */
  lemma IdentityPairWritesOrigin(m: Transcendentals, x: real, y: real, s: ECoordSys)
    ensures Converted(m, x, y, s, s) == Coord(0.0, 0.0)
  {
  }

  /** The six datum pairs hand the point to the Coordtransform formula of that direction. */
  lemma DatumPairsUseTheirFormula(m: Transcendentals, x: real, y: real)
    ensures Converted(m, x, y, WGS84, MARS) == Wgs84toGcj02(m, x, y)
    ensures Converted(m, x, y, MARS, WGS84) == Gcj02toWGS84(m, x, y)
    ensures Converted(m, x, y, WGS84, BAIDU) == Wgs84tobd09(m, x, y)
    ensures Converted(m, x, y, BAIDU, WGS84) == Bd09towgs84(m, x, y)
    ensures Converted(m, x, y, MARS, BAIDU) == Gcj02toBd09(m, x, y)
    ensures Converted(m, x, y, BAIDU, MARS) == Bd09toGcj02(m, x, y)
  {
  }

  /** Outside the China box the WGS84 <-> GCJ-02 pairs leave the point where it is. */
  lemma OutOfChinaUnmoved(m: Transcendentals, x: real, y: real)
    requires OutOfChina(x, y)
    ensures Converted(m, x, y, WGS84, MARS) == Coord(x, y)
    ensures Converted(m, x, y, MARS, WGS84) == Coord(x, y)
  {
  }

  /**
   * WGS84 -> WEBMERCATOR is lossy: the written point is (projected y, 0), so
   * the longitude is lost whatever it was.
   */
  lemma WebMercatorPairDropsLongitude(m: Transcendentals, lon1: real, lon2: real, lat: real)
    ensures Converted(m, lon1, lat, WGS84, WEBMERCATOR) == Coord(WGS84ToMercator(m, lon1, lat).y, 0.0)
    ensures Converted(m, lon1, lat, WGS84, WEBMERCATOR) == Converted(m, lon2, lat, WGS84, WEBMERCATOR)
  {
  }

  /**
   * Converts the caller's point in place. The returned point is the caller's
   * point itself, and its new coordinates are `Converted` of its old ones.
   */
  method CoorTrans(m: Transcendentals, ptSrc: Point, srcCoord: ECoordSys, tarCoord: ECoordSys)
    returns (ptDest: Point)
    modifies ptSrc
    ensures ptDest == ptSrc
    ensures Coord(ptSrc.X, ptSrc.Y) == Converted(m, old(ptSrc.X), old(ptSrc.Y), srcCoord, tarCoord)
  {
    ptDest := ptSrc;
    var xSrc, ySrc, xDest, yDest := 0.0, 0.0, 0.0, 0.0;
    xSrc := ptSrc.X;
    ySrc := ptSrc.Y;
    if srcCoord == WGS84 && tarCoord == MARS {
      xDest, yDest := WGS84toMars(m, xSrc, ySrc);
    } else if srcCoord == WGS84 && tarCoord == BAIDU {
      xDest, yDest := WGS84toBaidu(m, xSrc, ySrc);
    } else if srcCoord == MARS && tarCoord == WGS84 {
      xDest, yDest := Mars2WGS84(m, xSrc, ySrc);
    } else if srcCoord == MARS && tarCoord == BAIDU {
      xDest, yDest := Mars2Baidu(m, xSrc, ySrc);
    } else if srcCoord == BAIDU && tarCoord == WGS84 {
      xDest, yDest := Baidu2WGS84(m, xSrc, ySrc);
    } else if srcCoord == BAIDU && tarCoord == MARS {
      xDest, yDest := Baidu2Mars(m, xSrc, ySrc);
    } else if srcCoord == WEBMERCATOR && tarCoord == WGS84 {
      xDest, yDest := WebMercator2WGS84(m, xSrc, ySrc);
    } else if srcCoord == WGS84 && tarCoord == WEBMERCATOR {
      xDest, yDest := WGS84ToWebMercator(m, xSrc, ySrc);
    }
    ptDest.PutCoords(xDest, yDest);
  }

  /** Every vertex converted, in order: what CoordTransPointCollection leaves in the collection. */
  function ConvertedAll(m: Transcendentals, pts: seq<Coord>, src: ECoordSys, tar: ECoordSys): (r: seq<Coord>)
    ensures |r| == |pts|
    ensures forall j :: 0 <= j < |pts| ==> r[j] == Converted(m, pts[j].x, pts[j].y, src, tar)
  {
    if pts == [] then []
    else [Converted(m, pts[0].x, pts[0].y, src, tar)] + ConvertedAll(m, pts[1..], src, tar)
  }

  /** Converting a collection to its own system collapses every vertex onto the origin. */
  lemma ConvertedAllIdentityPair(m: Transcendentals, pts: seq<Coord>, s: ECoordSys)
    ensures ConvertedAll(m, pts, s, s) == seq(|pts|, _ => Coord(0.0, 0.0))
  {
    var r := ConvertedAll(m, pts, s, s);
    forall j | 0 <= j < |pts|
      ensures r[j] == Coord(0.0, 0.0)
    {
      IdentityPairWritesOrigin(m, pts[j].x, pts[j].y, s);
    }
  }

  /**
   * Rewrites every vertex of the collection in place: vertex j is queried
   * into a fresh point, converted by CoorTrans and written back at index j.
   */
  method CoordTransPointCollection(m: Transcendentals, pointCollection: PointCollection,
                                   coordSrc: ECoordSys, coordTar: ECoordSys)
    modifies pointCollection
    ensures pointCollection.points == ConvertedAll(m, old(pointCollection.points), coordSrc, coordTar)
  {
    ghost var original := pointCollection.points;
    var j2 := 0;
    while j2 < pointCollection.PointCount()
      invariant 0 <= j2 <= |pointCollection.points| == |original|
      invariant forall k :: 0 <= k < j2 ==>
                  pointCollection.points[k] == Converted(m, original[k].x, original[k].y, coordSrc, coordTar)
      invariant pointCollection.points[j2..] == original[j2..]
    {
      var ptSrc := new Point(0.0, 0.0);
      pointCollection.QueryPoint(j2, ptSrc);
      assert pointCollection.points[j2] == original[j2] by {
        assert pointCollection.points[j2..][0] == original[j2..][0];
      }
      var ptCal := CoorTrans(m, ptSrc, coordSrc, coordTar);
      pointCollection.UpdatePoint(j2, ptCal);
      j2 := j2 + 1;
    }
  }
}
