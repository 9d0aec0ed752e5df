/**
 * The closed enumerations of the library (QArcGISLib/QEnum.cs).
 * Only the cases are modelled; the numeric values the source attaches to
 * them are given by the `Code` functions where the source relies on them.
 */
module QEnum {

  /** Coordinate transformation types (ETransType). */
  datatype ETransType =
    | UnKnown
    | WGS84TOMARS
    | WGS84TOBAIDU
    | MARS2WGS84
    | MARS2BAIDU
    | BAIDU2WGS84
    | BAIDU2MARS
    | NJ92NJ2008
    | BJ54NJ92
    | NJ2008NJ92
    | WGS84NJ92
    | XA80NJ92
    | NJ92BJ54
    | NJ92WGS84
    | NJ92XA80

  /** Geometry comparison methods (EGeoCompareMethod). */
  datatype EGeoCompareMethod =
    | Equals
    | Touches
    | Contains
    | Within
    | Disjoint
    | Crosses
    | Overlaps
    | Relation

  /** Geodatabase kinds (EGdbType). */
  datatype EGdbType = PersonGeodatabase | FileGeodatabase | Shapefile

  /** Coordinate systems (ECoordSys). */
  datatype ECoordSys = WGS84 | MARS | BAIDU | WEBMERCATOR

  /** The numeric value the source gives each EGdbType member. */
  function GdbTypeCode(t: EGdbType): (c: int)
    ensures 0 <= c <= 2
  {
    match t
    case PersonGeodatabase => 0
    case FileGeodatabase => 1
    case Shapefile => 2
  }
}
