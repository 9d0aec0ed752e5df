/**
 * Projection-file selection and re-projection dispatch
 * (QArcGISLib/QSpatialReference.cs).
 *
 * The engine's spatial-reference factory is not modelled: a spatial
 * reference is identified by the `.prj` path it would be created from, and
 * the application base directory is a parameter.
 */
module QSpatialReference {
  import opened Wrappers
  import opened QEnum

  /** A spatial reference as the model identifies it. */
  datatype SpatialRef =
    | UnknownCoordinateSystem(domain: Option<Extent>)
    | FromPrjFile(path: string)

  /** XMin, YMin, XMax, YMax of a spatial domain. */
  datatype Extent = Extent(xMin: real, yMin: real, xMax: real, yMax: real)

  /**
   * A new unknown coordinate system. Its domain is set from the extent only
   * when exactly four values are given; any other count leaves it unset.
   */
  function CreateUnKnownSpatialReference(extent: seq<real>): (r: SpatialRef)
    ensures r.UnknownCoordinateSystem?
    ensures r.domain.Some? <==> |extent| == 4
    ensures r.domain.Some? ==> r.domain.value == Extent(extent[0], extent[1], extent[2], extent[3])
  {
    if |extent| != 4 then UnknownCoordinateSystem(None)
    else UnknownCoordinateSystem(Some(Extent(extent[0], extent[1], extent[2], extent[3])))
  }

  // ---------------------------------------------------------------------------
  // GetSourceTargetSpatialRef: the .prj path table
  // ---------------------------------------------------------------------------

  /**
   * The (pathFrom, pathTo) pair the nested switch assigns. Both start as "";
   * a branch assigns base directory + file name, and a zone argument that is
   * neither 117 nor 120 leaves its path "".
   */
  function SourceTargetPaths(baseDir: string, t: ETransType, fromLo: real, toLt: real, iMark: real): (string, string) {
    if iMark == 3.0 then
      match t
      case NJ92XA80 =>
        (baseDir + "Xian80_118'50.prj",
         if toLt == 117.0 then baseDir + "Xian80_117.prj"
         else if toLt == 120.0 then baseDir + "Xian80_120.prj" else "")
      case NJ92WGS84 =>
        (baseDir + "WGS84_118'50.prj",
         if toLt == 117.0 then baseDir + "WGS84_117.prj"
         else if toLt == 120.0 then baseDir + "WGS84_120.prj" else "")
      case NJ92BJ54 =>
        (baseDir + "Beijing54_118'50.prj",
         if toLt == 117.0 then baseDir + "Beijing54_117.prj"
         else if toLt == 120.0 then baseDir + "Beijing54_120.prj" else "")
      case XA80NJ92 =>
        (if fromLo == 117.0 then baseDir + "Xian80_117.prj"
         else if fromLo == 120.0 then baseDir + "Xian80_120.prj" else "",
         baseDir + "Xian80_118'50.prj")
      case WGS84NJ92 =>
        (if fromLo == 117.0 then baseDir + "WGS84_117.prj"
         else if fromLo == 120.0 then baseDir + "WGS84_120.prj" else "",
         baseDir + "WGS84_118'50.prj")
      case BJ54NJ92 =>
        (if fromLo == 117.0 then baseDir + "Beijing54_117.prj"
         else if fromLo == 120.0 then baseDir + "Beijing54_120.prj" else "",
         baseDir + "Beijing54_118'50.prj")
      case NJ2008NJ92 => (baseDir + "NJ08_118'50.prj", baseDir + "NanJing92_118'50.prj")
      case NJ92NJ2008 => (baseDir + "NanJing92_118'50.prj", baseDir + "NJ08_118'50.prj")
      case _ => ("", "")
    else if iMark == 1.0 then
      match t
      case XA80NJ92 =>
        (if fromLo == 117.0 then baseDir + "Xian80_117_20.prj"
         else if fromLo == 120.0 then baseDir + "Xian80_120_40.prj" else "",
         baseDir + "Xian80_118'50.prj")
      case WGS84NJ92 =>
        (if fromLo == 117.0 then baseDir + "WGS84_117_20.prj"
         else if fromLo == 120.0 then baseDir + "WGS84_120_40.prj" else "",
         baseDir + "WGS84_118'50.prj")
      case BJ54NJ92 =>
        (if fromLo == 117.0 then baseDir + "Beijing54_117_20.prj"
         else if fromLo == 120.0 then baseDir + "Beijing54_120_40.prj" else "",
         baseDir + "Beijing54_118'50.prj")
      case _ => ("", "")
    else if iMark == 2.0 then
      match t
      case NJ92XA80 =>
        (baseDir + "Xian80_118'50.prj",
         if toLt == 117.0 then baseDir + "Xian80_117_20.prj"
         else if toLt == 120.0 then baseDir + "Xian80_120_40.prj" else "")
      case NJ92WGS84 =>
        (baseDir + "WGS84_118'50.prj",
         if toLt == 117.0 then baseDir + "WGS84_117_20.prj"
         else if toLt == 120.0 then baseDir + "WGS84_120_40.prj" else "")
      case NJ92BJ54 =>
        (baseDir + "Beijing54_118'50.prj",
         if toLt == 117.0 then baseDir + "Beijing54_117_20.prj"
         else if toLt == 120.0 then baseDir + "Beijing54_120_40.prj" else "")
      case _ => ("", "")
    else
      ("", "")
  }

  /** The three local datums converted to and from Nanjing 92, with the file-name prefix of each. */
  predicate FromNanjing(t: ETransType) {
    t == NJ92XA80 || t == NJ92WGS84 || t == NJ92BJ54
  }

  predicate ToNanjing(t: ETransType) {
    t == XA80NJ92 || t == WGS84NJ92 || t == BJ54NJ92
  }

  /** The prefix the .prj files of a datum share. */
  function DatumPrefix(t: ETransType): string
    requires FromNanjing(t) || ToNanjing(t)
  {
    if t == NJ92XA80 || t == XA80NJ92 then "Xian80"
    else if t == NJ92WGS84 || t == WGS84NJ92 then "WGS84"
    else "Beijing54"
  }

  /** The same conversion in the opposite direction. */
  function Reversed(t: ETransType): ETransType {
    match t
    case NJ92XA80 => XA80NJ92
    case XA80NJ92 => NJ92XA80
    case NJ92WGS84 => WGS84NJ92
    case WGS84NJ92 => NJ92WGS84
    case NJ92BJ54 => BJ54NJ92
    case BJ54NJ92 => NJ92BJ54
    case NJ92NJ2008 => NJ2008NJ92
    case NJ2008NJ92 => NJ92NJ2008
    case _ => t
  }

  /**
   * The file of a datum in a zone: the central meridian 118'50 of Nanjing, or
   * zone 117 / 120 with (iMark 1 and 2) or without (iMark 3) the zone-number
   * suffix; "" for any other zone.
   */
  function ZoneFile(baseDir: string, prefix: string, zone: real, numbered: bool): string {
    if zone == 117.0 then baseDir + prefix + (if numbered then "_117_20.prj" else "_117.prj")
    else if zone == 120.0 then baseDir + prefix + (if numbered then "_120_40.prj" else "_120.prj")
    else ""
  }

  /**
   * The table as a rule for iMark 3: a type from Nanjing 92 reads the datum's
   * 118'50 file and writes the zone file chosen by toLt; a type to Nanjing 92
   * reads the zone file chosen by fromLo and writes the 118'50 file.
   */
  lemma PathTableRule(baseDir: string, t: ETransType, fromLo: real, toLt: real, iMark: real)
    ensures iMark == 3.0 && FromNanjing(t) ==>
      SourceTargetPaths(baseDir, t, fromLo, toLt, iMark)
        == (baseDir + DatumPrefix(t) + "_118'50.prj", ZoneFile(baseDir, DatumPrefix(t), toLt, false))
    ensures iMark == 3.0 && ToNanjing(t) ==>
      SourceTargetPaths(baseDir, t, fromLo, toLt, iMark)
        == (ZoneFile(baseDir, DatumPrefix(t), fromLo, false), baseDir + DatumPrefix(t) + "_118'50.prj")
  {
    if iMark == 3.0 && FromNanjing(t) {
      FromNanjingPaths(baseDir, t, fromLo, toLt);
    } else if iMark == 3.0 && ToNanjing(t) {
      ToNanjingPaths(baseDir, t, fromLo, toLt);
    }
  }

  /**
   * The table as a rule for iMark 1 and 2: iMark 1 handles only the types to
   * Nanjing 92 and iMark 2 only those from it, both with the zone-numbered
   * files.
   */
  lemma NumberedPathTableRule(baseDir: string, t: ETransType, fromLo: real, toLt: real, iMark: real)
    ensures iMark == 1.0 && ToNanjing(t) ==>
      SourceTargetPaths(baseDir, t, fromLo, toLt, iMark)
        == (ZoneFile(baseDir, DatumPrefix(t), fromLo, true), baseDir + DatumPrefix(t) + "_118'50.prj")
    ensures iMark == 2.0 && FromNanjing(t) ==>
      SourceTargetPaths(baseDir, t, fromLo, toLt, iMark)
        == (baseDir + DatumPrefix(t) + "_118'50.prj", ZoneFile(baseDir, DatumPrefix(t), toLt, true))
  {
    if iMark == 1.0 && ToNanjing(t) {
      NumberedToNanjingPaths(baseDir, t, fromLo, toLt);
    } else if iMark == 2.0 && FromNanjing(t) {
      NumberedFromNanjingPaths(baseDir, t, fromLo, toLt);
    }
  }

  lemma FromNanjingPaths(baseDir: string, t: ETransType, fromLo: real, toLt: real)
    requires FromNanjing(t)
    ensures SourceTargetPaths(baseDir, t, fromLo, toLt, 3.0)
         == (baseDir + DatumPrefix(t) + "_118'50.prj", ZoneFile(baseDir, DatumPrefix(t), toLt, false))
  {
    if t == NJ92XA80 || t == XA80NJ92 {
      XianFileNames(baseDir);
    } else if t == NJ92WGS84 || t == WGS84NJ92 {
      WGS84FileNames(baseDir);
    } else {
      Beijing54FileNames(baseDir);
    }
  }

  lemma ToNanjingPaths(baseDir: string, t: ETransType, fromLo: real, toLt: real)
    requires ToNanjing(t)
    ensures SourceTargetPaths(baseDir, t, fromLo, toLt, 3.0)
         == (ZoneFile(baseDir, DatumPrefix(t), fromLo, false), baseDir + DatumPrefix(t) + "_118'50.prj")
  {
    if t == NJ92XA80 || t == XA80NJ92 {
      XianFileNames(baseDir);
    } else if t == NJ92WGS84 || t == WGS84NJ92 {
      WGS84FileNames(baseDir);
    } else {
      Beijing54FileNames(baseDir);
    }
  }

  lemma NumberedToNanjingPaths(baseDir: string, t: ETransType, fromLo: real, toLt: real)
    requires ToNanjing(t)
    ensures SourceTargetPaths(baseDir, t, fromLo, toLt, 1.0)
         == (ZoneFile(baseDir, DatumPrefix(t), fromLo, true), baseDir + DatumPrefix(t) + "_118'50.prj")
  {
    if t == NJ92XA80 || t == XA80NJ92 {
      XianFileNames(baseDir);
    } else if t == NJ92WGS84 || t == WGS84NJ92 {
      WGS84FileNames(baseDir);
    } else {
      Beijing54FileNames(baseDir);
    }
  }

  lemma NumberedFromNanjingPaths(baseDir: string, t: ETransType, fromLo: real, toLt: real)
    requires FromNanjing(t)
    ensures SourceTargetPaths(baseDir, t, fromLo, toLt, 2.0)
         == (baseDir + DatumPrefix(t) + "_118'50.prj", ZoneFile(baseDir, DatumPrefix(t), toLt, true))
  {
    if t == NJ92XA80 || t == XA80NJ92 {
      XianFileNames(baseDir);
    } else if t == NJ92WGS84 || t == WGS84NJ92 {
      WGS84FileNames(baseDir);
    } else {
      Beijing54FileNames(baseDir);
    }
  }

  /** The Xian 80 file names are the prefix "Xian80" followed by the zone suffix. */
  lemma XianFileNames(baseDir: string)
    ensures baseDir + "Xian80" + "_118'50.prj" == baseDir + "Xian80_118'50.prj"
    ensures baseDir + "Xian80" + "_117.prj" == baseDir + "Xian80_117.prj"
    ensures baseDir + "Xian80" + "_120.prj" == baseDir + "Xian80_120.prj"
    ensures baseDir + "Xian80" + "_117_20.prj" == baseDir + "Xian80_117_20.prj"
    ensures baseDir + "Xian80" + "_120_40.prj" == baseDir + "Xian80_120_40.prj"
  {
    assert baseDir + "Xian80" + "_118'50.prj" == baseDir + ("Xian80" + "_118'50.prj");
    assert baseDir + "Xian80" + "_117.prj" == baseDir + ("Xian80" + "_117.prj");
    assert baseDir + "Xian80" + "_120.prj" == baseDir + ("Xian80" + "_120.prj");
    assert baseDir + "Xian80" + "_117_20.prj" == baseDir + ("Xian80" + "_117_20.prj");
    assert baseDir + "Xian80" + "_120_40.prj" == baseDir + ("Xian80" + "_120_40.prj");
  }

  /** The WGS 84 file names are the prefix "WGS84" followed by the zone suffix. */
  lemma WGS84FileNames(baseDir: string)
    ensures baseDir + "WGS84" + "_118'50.prj" == baseDir + "WGS84_118'50.prj"
    ensures baseDir + "WGS84" + "_117.prj" == baseDir + "WGS84_117.prj"
    ensures baseDir + "WGS84" + "_120.prj" == baseDir + "WGS84_120.prj"
    ensures baseDir + "WGS84" + "_117_20.prj" == baseDir + "WGS84_117_20.prj"
    ensures baseDir + "WGS84" + "_120_40.prj" == baseDir + "WGS84_120_40.prj"
  {
    assert baseDir + "WGS84" + "_118'50.prj" == baseDir + ("WGS84" + "_118'50.prj");
    assert baseDir + "WGS84" + "_117.prj" == baseDir + ("WGS84" + "_117.prj");
    assert baseDir + "WGS84" + "_120.prj" == baseDir + ("WGS84" + "_120.prj");
    assert baseDir + "WGS84" + "_117_20.prj" == baseDir + ("WGS84" + "_117_20.prj");
    assert baseDir + "WGS84" + "_120_40.prj" == baseDir + ("WGS84" + "_120_40.prj");
  }

  /** The Beijing 54 file names are the prefix "Beijing54" followed by the zone suffix. */
  lemma Beijing54FileNames(baseDir: string)
    ensures baseDir + "Beijing54" + "_118'50.prj" == baseDir + "Beijing54_118'50.prj"
    ensures baseDir + "Beijing54" + "_117.prj" == baseDir + "Beijing54_117.prj"
    ensures baseDir + "Beijing54" + "_120.prj" == baseDir + "Beijing54_120.prj"
    ensures baseDir + "Beijing54" + "_117_20.prj" == baseDir + "Beijing54_117_20.prj"
    ensures baseDir + "Beijing54" + "_120_40.prj" == baseDir + "Beijing54_120_40.prj"
  {
    assert baseDir + "Beijing54" + "_118'50.prj" == baseDir + ("Beijing54" + "_118'50.prj");
    assert baseDir + "Beijing54" + "_117.prj" == baseDir + ("Beijing54" + "_117.prj");
    assert baseDir + "Beijing54" + "_120.prj" == baseDir + ("Beijing54" + "_120.prj");
    assert baseDir + "Beijing54" + "_117_20.prj" == baseDir + ("Beijing54" + "_117_20.prj");
    assert baseDir + "Beijing54" + "_120_40.prj" == baseDir + ("Beijing54" + "_120_40.prj");
  }

  /** The Nanjing 2008 pair is handled only with iMark 3, each direction by the mirror file pair. */
  lemma Nanjing2008Pair(baseDir: string, fromLo: real, toLt: real, iMark: real)
    ensures iMark == 3.0 ==>
      SourceTargetPaths(baseDir, NJ2008NJ92, fromLo, toLt, iMark) == (baseDir + "NJ08_118'50.prj", baseDir + "NanJing92_118'50.prj")
    ensures iMark == 3.0 ==>
      SourceTargetPaths(baseDir, NJ92NJ2008, fromLo, toLt, iMark) == (baseDir + "NanJing92_118'50.prj", baseDir + "NJ08_118'50.prj")
    ensures iMark != 3.0 ==>
      SourceTargetPaths(baseDir, NJ2008NJ92, fromLo, toLt, iMark) == ("", "")
      && SourceTargetPaths(baseDir, NJ92NJ2008, fromLo, toLt, iMark) == ("", "")
  {
  }

  /**
   * The table is symmetric: reversing the conversion swaps the two paths, the
   * source zone of one direction playing the part of the target zone of the
   * other. With iMark 3 this holds for every handled type; the zone-numbered
   * tables pair iMark 1 (to Nanjing 92) with iMark 2 (from it).
   */
  lemma ReversedTypeSwapsPaths(baseDir: string, t: ETransType, zone: real, other: real)
    ensures var p := SourceTargetPaths(baseDir, t, zone, zone, 3.0);
            SourceTargetPaths(baseDir, Reversed(t), zone, zone, 3.0) == (p.1, p.0)
            || p == ("", "")
    ensures ToNanjing(t) ==>
      var p := SourceTargetPaths(baseDir, t, zone, other, 1.0);
      SourceTargetPaths(baseDir, Reversed(t), other, zone, 2.0) == (p.1, p.0)
  {
  }

  /**
   * Both paths stay "" when iMark is not 1, 2 or 3, or when the type has no
   * case for that iMark.
   */
  lemma UnhandledLeavesPathsEmpty(baseDir: string, t: ETransType, fromLo: real, toLt: real, iMark: real)
    ensures iMark != 1.0 && iMark != 2.0 && iMark != 3.0 ==>
      SourceTargetPaths(baseDir, t, fromLo, toLt, iMark) == ("", "")
    ensures iMark == 1.0 && !ToNanjing(t) ==> SourceTargetPaths(baseDir, t, fromLo, toLt, iMark) == ("", "")
    ensures iMark == 2.0 && !FromNanjing(t) ==> SourceTargetPaths(baseDir, t, fromLo, toLt, iMark) == ("", "")
    ensures iMark == 3.0 && !ToNanjing(t) && !FromNanjing(t) && t != NJ2008NJ92 && t != NJ92NJ2008 ==>
      SourceTargetPaths(baseDir, t, fromLo, toLt, iMark) == ("", "")
  {
  }

  /** A path is either unassigned or the base directory followed by a `.prj` file name. */
  predicate PrjPathOrEmpty(baseDir: string, path: string) {
    path == "" || (baseDir <= path && |path| > |baseDir| + 4 && path[|path| - 4..] == ".prj")
  }

  lemma PrjPathOf(baseDir: string, name: string)
    requires |name| > 4 && name[|name| - 4..] == ".prj"
    ensures PrjPathOrEmpty(baseDir, baseDir + name)
  {
    var path := baseDir + name;
    assert path[..|baseDir|] == baseDir;
    assert path[|path| - 4..] == name[|name| - 4..];
  }

  lemma ZoneFileIsPrjPath(baseDir: string, prefix: string, zone: real, numbered: bool)
    ensures PrjPathOrEmpty(baseDir, ZoneFile(baseDir, prefix, zone, numbered))
    ensures PrjPathOrEmpty(baseDir, baseDir + prefix + "_118'50.prj")
  {
    if zone == 117.0 {
      var suffix := if numbered then "_117_20.prj" else "_117.prj";
      assert |suffix| > 4 && suffix[|suffix| - 4..] == ".prj";
      PrefixedPrjPath(baseDir, prefix, suffix);
    } else if zone == 120.0 {
      var suffix := if numbered then "_120_40.prj" else "_120.prj";
      assert |suffix| > 4 && suffix[|suffix| - 4..] == ".prj";
      PrefixedPrjPath(baseDir, prefix, suffix);
    }
    assert |"_118'50.prj"| > 4 && "_118'50.prj"[7..] == ".prj";
    PrefixedPrjPath(baseDir, prefix, "_118'50.prj");
  }

  /** The base directory, a prefix and a `.prj` file name make a `.prj` path. */
  lemma PrefixedPrjPath(baseDir: string, prefix: string, suffix: string)
    requires |suffix| > 4 && suffix[|suffix| - 4..] == ".prj"
    ensures PrjPathOrEmpty(baseDir, baseDir + prefix + suffix)
  {
    assert baseDir + prefix + suffix == baseDir + (prefix + suffix);
    PrjNameWithPrefix(prefix, suffix);
    PrjPathOf(baseDir, prefix + suffix);
  }

  /** A `.prj` file name stays one behind any prefix. */
  lemma PrjNameWithPrefix(prefix: string, suffix: string)
    requires |suffix| > 4 && suffix[|suffix| - 4..] == ".prj"
    ensures |prefix + suffix| > 4 && (prefix + suffix)[|prefix + suffix| - 4..] == ".prj"
  {
    assert (prefix + suffix)[|prefix + suffix| - 4..] == suffix[|suffix| - 4..];
  }

  /** Every path the table assigns is the base directory followed by a `.prj` file name. */
  lemma AssignedPathsArePrjFiles(baseDir: string, t: ETransType, fromLo: real, toLt: real, iMark: real)
    ensures PrjPathOrEmpty(baseDir, SourceTargetPaths(baseDir, t, fromLo, toLt, iMark).0)
    ensures PrjPathOrEmpty(baseDir, SourceTargetPaths(baseDir, t, fromLo, toLt, iMark).1)
  {
    PathTableRule(baseDir, t, fromLo, toLt, iMark);
    NumberedPathTableRule(baseDir, t, fromLo, toLt, iMark);
    UnhandledLeavesPathsEmpty(baseDir, t, fromLo, toLt, iMark);
    if FromNanjing(t) || ToNanjing(t) {
      var z := if FromNanjing(t) then toLt else fromLo;
      ZoneFileIsPrjPath(baseDir, DatumPrefix(t), z, iMark != 3.0);
    } else if t == NJ2008NJ92 || t == NJ92NJ2008 {
      Nanjing2008Pair(baseDir, fromLo, toLt, iMark);
      PrjPathOf(baseDir, "NJ08_118'50.prj");
      PrjPathOf(baseDir, "NanJing92_118'50.prj");
    }
  }

  // ---------------------------------------------------------------------------
  // AlterSpatial: the re-projection dispatch
  // ---------------------------------------------------------------------------

  /** The outcome of AlterSpatial: the spatial reference written, or the index error of a short parameter array. */
  datatype AlterOutcome = Altered(to: SpatialRef) | IndexOutOfRange

  /**
   * The spatial reference AlterSpatial gives the dataset. The three types
   * from Nanjing 92 take the target path of the table with parameters
   * [5], [6] and [7] as fromLo, toLt and iMark.
   */
  function AlterSpatial(baseDir: string, t: ETransType, parameters: seq<real>): (r: AlterOutcome)
    ensures r.IndexOutOfRange? <==> FromNanjing(t) && |parameters| < 8
  {
    match t
    case UnKnown =>
      Altered(UnknownCoordinateSystem(None))
    case NJ92NJ2008 =>
      Altered(FromPrjFile(baseDir + "NJ08_118'50.prj"))
    case BJ54NJ92 | NJ2008NJ92 | WGS84NJ92 | XA80NJ92 =>
      Altered(FromPrjFile(baseDir + "NanJing92_118'50.prj"))
    case WGS84TOMARS | WGS84TOBAIDU | BAIDU2WGS84 | BAIDU2MARS | MARS2BAIDU | MARS2WGS84 =>
      Altered(FromPrjFile(baseDir + "WGS84.prj"))
    case NJ92BJ54 | NJ92WGS84 | NJ92XA80 =>
      if |parameters| < 8 then IndexOutOfRange
      else Altered(FromPrjFile(SourceTargetPaths(baseDir, t, parameters[5], parameters[6], parameters[7]).1))
  }

  /**
   * Every transformation type reaches exactly one target: the datum-shift
   * types the WGS84 file, the types to Nanjing 92 its 118'50 file, Nanjing 92
   * to 2008 the 2008 file, and the types from Nanjing 92 the zone file of the
   * table (with iMark 1 giving no path at all).
   */
  lemma AlterSpatialTargets(baseDir: string, t: ETransType, parameters: seq<real>)
    ensures t == UnKnown ==> AlterSpatial(baseDir, t, parameters) == Altered(UnknownCoordinateSystem(None))
    ensures t in {WGS84TOMARS, WGS84TOBAIDU, MARS2WGS84, MARS2BAIDU, BAIDU2WGS84, BAIDU2MARS} ==>
      AlterSpatial(baseDir, t, parameters) == Altered(FromPrjFile(baseDir + "WGS84.prj"))
    ensures ToNanjing(t) || t == NJ2008NJ92 ==>
      AlterSpatial(baseDir, t, parameters) == Altered(FromPrjFile(baseDir + "NanJing92_118'50.prj"))
    ensures t == NJ92NJ2008 ==> AlterSpatial(baseDir, t, parameters) == Altered(FromPrjFile(baseDir + "NJ08_118'50.prj"))
    ensures FromNanjing(t) && |parameters| >= 8 && parameters[7] == 3.0 ==>
      AlterSpatial(baseDir, t, parameters) == Altered(FromPrjFile(ZoneFile(baseDir, DatumPrefix(t), parameters[6], false)))
    ensures FromNanjing(t) && |parameters| >= 8 && parameters[7] == 2.0 ==>
      AlterSpatial(baseDir, t, parameters) == Altered(FromPrjFile(ZoneFile(baseDir, DatumPrefix(t), parameters[6], true)))
    ensures FromNanjing(t) && |parameters| >= 8 && parameters[7] != 2.0 && parameters[7] != 3.0 ==>
      AlterSpatial(baseDir, t, parameters) == Altered(FromPrjFile(""))
  {
    if FromNanjing(t) && |parameters| >= 8 {
      PathTableRule(baseDir, t, parameters[5], parameters[6], parameters[7]);
      NumberedPathTableRule(baseDir, t, parameters[5], parameters[6], parameters[7]);
    }
  }
}
