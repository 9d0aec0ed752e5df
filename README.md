# QArcGISLib, modelled in Dafny

QArcGISLib is a C# helper library over the ArcGIS Engine geodatabase API. This
project models its core in two parts:

- **The coordinate-transform engine.** These are the WGS84 / GCJ-02 ("Mars") /
  BD-09 ("Baidu") / Web Mercator formulas of `Coordtransform`. Beside them are
  the `GISCTrans` dispatcher, which picks a formula for a (source, target)
  pair of coordinate systems, and its in-place vertex loop over a point
  collection. Reals stand for doubles. The transcendental functions (sin, cos,
  sqrt, atan2, atan, exp, tan, log) are a record of uninterpreted functions
  the formulas receive as a parameter. The properties proved hold for any such
  functions: the China bounding-box guard, how the GCJ-02 offset is composed,
  the exact round-trip conditions, and the Web Mercator constant mismatch.
- **The decision logic of the geodatabase helpers.** These are `QWorkspace`,
  `QSpatialReference`, `QField`, `QFeatureClass`, `QDataset`, `QExist`,
  `QCompare`, `QTable` and `QFeature`. The engine is reduced to the state they
  observe:
  - a workspace is three ordered lists: standalone feature classes, feature
    datasets with their subsets, and tables;
  - a table or feature class is an object whose field list and rows are
    updated in place;
  - a row handed around in a list carries its own fields and values.

  Each helper is modelled as the source writes it: its guards, its
  enumeration loops, its first-match or last-match searches, its error
  messages and its exception paths. An engine call that throws is an error
  outcome (`None`, a `threw` flag, or the message the `catch` stores).

Geometry relations (`Equals`, `Touches`, ...) and the calls the model cannot
see are parameters. These are: the engine's relational operator, the
factories that open a workspace, the name-exists test of a creation call, and
reference equality between two COM objects.

The modules are:

| module | file | models |
|---|---|---|
| `Wrappers` | wrappers.dfy | `Option` |
| `QEnum` | qenum.dfy | `QEnum.cs` |
| `Coordtransform` | coordtransform.dfy | `GISCoordTrans/Coordtransform.cs` |
| `GISCTrans` | gisctrans.dfy | `GISCoordTrans/GISCTrans.cs` |
| `QSpatialReference` | qspatialreference.dfy | `QSpatialReference.cs` |
| `QWorkspace` | qworkspace.dfy | `QWorkspace.cs` |
| `Geodatabase` | geodatabase.dfy | the engine objects the helpers use |
| `QField` | qfield.dfy | `QField.cs` |
| `DeleteScan` | deletescan.dfy | the delete-while-enumerating loops of `QFeatureClass.cs` and `QDataset.cs` |
| `RowCopy` | rowcopy.dfy | the field-by-field row copy and the flush rule shared by the copy helpers |
| `QFeatureClass` | qfeatureclass.dfy | `QFeatureClass.cs` |
| `QDataset` | qdataset.dfy | `QDataset.cs` |
| `Search` | search.dfy | the last-match search over a shrinking window of `QExist.cs`, `QTable.cs` and `QFeature.cs` |
| `QCompare` | qcompare.dfy | `QCompare.cs` |
| `QExist` | qexist.dfy | `QExist.cs` |
| `QTable` | qtable.dfy | `QTable.cs` |
| `QFeature` | qfeature.dfy | `QFeature.cs` |

## Model

| member | source | states |
|---|---|---|
| `Coordtransform.OutOfChina` | QArcGISLib/GISCoordTrans/Coordtransform.cs:157-160 | the China test: a point is outside unless 73.66 < lng < 135.05 and 3.86 < lat < 53.55; `BoxEdgesAreOutside` states that every point on an edge of the open box is outside |
| `Coordtransform.BoxEdgesAreOutside` | QArcGISLib/GISCoordTrans/Coordtransform.cs:157-160 | the China test uses strict comparisons, so a point on any edge of the box 73.66..135.05 E, 3.86..53.55 N counts as outside |
| `Coordtransform.TransformLatitude` | QArcGISLib/GISCoordTrans/Coordtransform.cs:124-132 | the latitude offset series, with sin and sqrt as parameters; `SeriesAtReferenceOrigin` states its base constant -100 at the reference origin, and `OffsetFollowsSeries` ties the GCJ-02 latitude shift to it |
| `Coordtransform.TransformLongitude` | QArcGISLib/GISCoordTrans/Coordtransform.cs:140-148 | the longitude offset series; `SeriesAtReferenceOrigin` states its base constant 300, `LongitudeSeriesLinearInLatitude` that the latitude enters only through 2*lat + 0.1*lon*lat, and `OffsetFollowsSeries` ties the longitude shift to it |
| `Coordtransform.SeriesAtReferenceOrigin` | QArcGISLib/GISCoordTrans/Coordtransform.cs:124-148 | at the reference origin (105 E, 35 N, after the shift) the two offset series reduce to their base constants -100 and 300 |
| `Coordtransform.LongitudeSeriesLinearInLatitude` | QArcGISLib/GISCoordTrans/Coordtransform.cs:140-148 | the longitude series depends on the latitude only through 2*lat + 0.1*lon*lat; every harmonic band is a function of the longitude alone |
| `Coordtransform.OffsetFollowsSeries` | QArcGISLib/GISCoordTrans/Coordtransform.cs:66-87 | the GCJ-02 latitude shift is zero exactly when the latitude series at (lng-105, lat-35) is zero or its scale is, and the longitude shift likewise with the longitude series |
| `Coordtransform.Wgs84toGcj02` | QArcGISLib/GISCoordTrans/Coordtransform.cs:66-87 | outside the China box WGS84 -> GCJ-02 returns the input point unchanged |
| `Coordtransform.Gcj02toWGS84` | QArcGISLib/GISCoordTrans/Coordtransform.cs:95-116 | outside the China box GCJ-02 -> WGS84 returns the input point unchanged |
| `Coordtransform.GcjLegsShareOffset` | QArcGISLib/GISCoordTrans/Coordtransform.cs:66-116 | inside the box the forward leg adds and the inverse leg subtracts the same offset, computed at the given point |
| `Coordtransform.ReflectionIdentity` | QArcGISLib/GISCoordTrans/Coordtransform.cs:66-116 | at every point the two GCJ-02 legs' results sum to twice the input: the inverse is a reflection through the input |
| `Coordtransform.GcjRoundTripExactIff` | QArcGISLib/GISCoordTrans/Coordtransform.cs:66-116 | WGS84 -> GCJ-02 -> WGS84 returns the starting point exactly when the offset at the shifted point equals the offset at the start (both inside the box) |
| `Coordtransform.Bd09toGcj02` | QArcGISLib/GISCoordTrans/Coordtransform.cs:31-41 | BD-09 to GCJ-02; `BaiduLegsAreBiasedPolarSteps` states it is the bias removal followed by the polar step that subtracts the corrections, and `BaiduRoundTripIffPolarInverse` relates it to its inverse |
| `Coordtransform.Gcj02toBd09` | QArcGISLib/GISCoordTrans/Coordtransform.cs:50-58 | GCJ-02 to BD-09; `BaiduLegsAreBiasedPolarSteps` states it is the polar step that adds the corrections followed by the bias, and `BaiduRoundTripIffPolarInverse` states when it and `Bd09toGcj02` invert each other |
| `Coordtransform.BaiduLegsAreBiasedPolarSteps` | QArcGISLib/GISCoordTrans/Coordtransform.cs:31-58 | BD-09 -> GCJ-02 removes the bias (0.0065, 0.006) and then takes a polar step subtracting the corrections; GCJ-02 -> BD-09 takes the polar step adding them and then adds that bias |
| `Coordtransform.BaiduRoundTripIffPolarInverse` | QArcGISLib/GISCoordTrans/Coordtransform.cs:31-58 | the GCJ-02 -> BD-09 -> GCJ-02 round trip is exactly the subtracting polar step applied to the adding one: the biases cancel |
| `Coordtransform.Wgs84tobd09` | QArcGISLib/GISCoordTrans/Coordtransform.cs:168-173 | WGS84 to BD-09 through GCJ-02; `Wgs84tobd09OutsideChina` states it is GCJ-02 to BD-09 of the input outside the box |
| `Coordtransform.Wgs84tobd09OutsideChina` | QArcGISLib/GISCoordTrans/Coordtransform.cs:168-173 | WGS84 -> BD-09 goes through GCJ-02, so outside the box it is GCJ-02 -> BD-09 of the input |
| `Coordtransform.Bd09towgs84` | QArcGISLib/GISCoordTrans/Coordtransform.cs:181-186 | BD-09 to WGS84 through GCJ-02; `Bd09towgs84OutsideChina` states it is BD-09 to GCJ-02 when the intermediate point is outside the box, and `BaiduLegCancelsInRoundTrip` relates its round trip to the GCJ-02 one |
| `Coordtransform.Bd09towgs84OutsideChina` | QArcGISLib/GISCoordTrans/Coordtransform.cs:181-186 | BD-09 -> WGS84 goes through GCJ-02, so when the intermediate point is outside the box it is BD-09 -> GCJ-02 |
| `Coordtransform.BaiduLegCancelsInRoundTrip` | QArcGISLib/GISCoordTrans/Coordtransform.cs:168-186 | where the polar steps invert each other, WGS84 -> BD-09 -> WGS84 equals the WGS84 -> GCJ-02 -> WGS84 round trip: the Baidu leg adds no error |
| `Coordtransform.WGS84ToMercator` | QArcGISLib/GISCoordTrans/Coordtransform.cs:195-204 | WGS84 to Web Mercator; `MercatorAxesScaledDifferently` states that its x and y scales differ, and `MercatorXRoundTripScales` and `MercatorYRoundTripBias` state how far the round trip through `WebMercator2WGS84` is from the identity |
| `Coordtransform.WebMercator2WGS84` | QArcGISLib/GISCoordTrans/Coordtransform.cs:212-221 | Web Mercator to WGS84 with the constant 20037508.34 on both axes; `MercatorXRoundTripScales` and `MercatorYRoundTripBias` state that it inverts `WGS84ToMercator` only up to the ratio of the two constants |
| `Coordtransform.MercatorXRoundTripScales` | QArcGISLib/GISCoordTrans/Coordtransform.cs:195-221 | the x round trip through Web Mercator multiplies the longitude by 20037508.342789 / 20037508.34, so it returns the longitude only for 0 |
| `Coordtransform.MercatorYRoundTripBias` | QArcGISLib/GISCoordTrans/Coordtransform.cs:195-221 | the y round trip hands the inverse a latitude-in-degrees scaled by 20037508.34789 / 20037508.34 instead of the forward one |
| `Coordtransform.MercatorAxesScaledDifferently` | QArcGISLib/GISCoordTrans/Coordtransform.cs:195-204 | the forward x and y scales differ: equal unscaled x and y project to different meters |
| `GISCTrans.Point.PutCoords` | QArcGISLib/GISCoordTrans/GISCTrans.cs:191 | the point's two coordinates are overwritten |
| `GISCTrans.PointCollection.QueryPoint` | QArcGISLib/GISCoordTrans/GISCTrans.cs:207-208 | vertex j is copied into the given point |
| `GISCTrans.PointCollection.UpdatePoint` | QArcGISLib/GISCoordTrans/GISCTrans.cs:210 | vertex j becomes the given point; every other vertex is kept |
| `GISCTrans.WGS84toMars` | QArcGISLib/GISCoordTrans/GISCTrans.cs:31-36 | the out-parameters are the two elements of WGS84 -> GCJ-02 |
| `GISCTrans.WGS84toBaidu` | QArcGISLib/GISCoordTrans/GISCTrans.cs:45-50 | the out-parameters are the two elements of WGS84 -> BD-09 |
| `GISCTrans.Mars2WGS84` | QArcGISLib/GISCoordTrans/GISCTrans.cs:59-64 | the out-parameters are the two elements of GCJ-02 -> WGS84 |
| `GISCTrans.Mars2Baidu` | QArcGISLib/GISCoordTrans/GISCTrans.cs:73-78 | the out-parameters are the two elements of GCJ-02 -> BD-09 |
| `GISCTrans.Baidu2WGS84` | QArcGISLib/GISCoordTrans/GISCTrans.cs:87-92 | the out-parameters are the two elements of BD-09 -> WGS84 |
| `GISCTrans.Baidu2Mars` | QArcGISLib/GISCoordTrans/GISCTrans.cs:101-106 | the out-parameters are the two elements of BD-09 -> GCJ-02 |
| `GISCTrans.WGS84ToWebMercator` | QArcGISLib/GISCoordTrans/GISCTrans.cs:116-123 | x_tar ends holding the projected y (the projected x is overwritten), and y_tar keeps its initial 0 |
| `GISCTrans.WebMercator2WGS84` | QArcGISLib/GISCoordTrans/GISCTrans.cs:132-139 | the out-parameters are the two elements of the inverse projection |
| `GISCTrans.Converted` | QArcGISLib/GISCoordTrans/GISCTrans.cs:153-192 | a (source, target) pair without a branch leaves the initial (0, 0) as the written point |
| `GISCTrans.RoutedPairsCount` | QArcGISLib/GISCoordTrans/GISCTrans.cs:159-190 | exactly eight of the sixteen pairs have a branch, and no pair of a system with itself does |
| `GISCTrans.IdentityPairWritesOrigin` | QArcGISLib/GISCoordTrans/GISCTrans.cs:153-192 | converting a point to its own system moves it to (0, 0) |
| `GISCTrans.DatumPairsUseTheirFormula` | QArcGISLib/GISCoordTrans/GISCTrans.cs:159-182 | each of the six datum pairs writes the Coordtransform result of that direction |
| `GISCTrans.OutOfChinaUnmoved` | QArcGISLib/GISCoordTrans/Coordtransform.cs:66-71 | outside the China box the WGS84 -> GCJ-02 and GCJ-02 -> WGS84 pairs write the point back unchanged |
| `GISCTrans.WebMercatorPairDropsLongitude` | QArcGISLib/GISCoordTrans/GISCTrans.cs:187-190 | WGS84 -> WEBMERCATOR writes (projected y, 0), so two points differing only in longitude are written alike |
| `GISCTrans.CoorTrans` | QArcGISLib/GISCoordTrans/GISCTrans.cs:153-192 | the returned point is the caller's point itself, and its new coordinates are the pair's conversion of its old ones |
| `GISCTrans.ConvertedAll` | QArcGISLib/GISCoordTrans/GISCTrans.cs:205-211 | the converted collection has one vertex per vertex, and vertex j is the pair's conversion of the old vertex j |
| `GISCTrans.ConvertedAllIdentityPair` | QArcGISLib/GISCoordTrans/GISCTrans.cs:200-212 | converting a collection to its own system collapses every vertex onto (0, 0) |
| `GISCTrans.CoordTransPointCollection` | QArcGISLib/GISCoordTrans/GISCTrans.cs:200-212 | after the in-place loop the collection is every old vertex converted, in order |
| `QSpatialReference.CreateUnKnownSpatialReference` | QArcGISLib/QSpatialReference.cs:46-59 | the result is an unknown coordinate system whose domain is set exactly when four extent values are given, and then to those four values in order |
| `QSpatialReference.SourceTargetPaths` | QArcGISLib/QSpatialReference.cs:166-280 | the iMark/type path table of `GetSourceTargetSpatialRef`; `PathTableRule`, `NumberedPathTableRule`, `Nanjing2008Pair`, `ReversedTypeSwapsPaths`, `UnhandledLeavesPathsEmpty` and `AssignedPathsArePrjFiles` state its rows, its symmetry and its file names |
| `QSpatialReference.PathTableRule` | QArcGISLib/QSpatialReference.cs:169-280 | with iMark 3 a type from Nanjing 92 reads the datum's 118'50 file and writes the zone file toLt picks, and a type to Nanjing 92 reads the zone file fromLo picks and writes the 118'50 file |
| `QSpatialReference.NumberedPathTableRule` | QArcGISLib/QSpatialReference.cs:226-278 | with iMark 1 a type to Nanjing 92 reads the zone-numbered file (`_117_20` / `_120_40`) fromLo picks and writes the 118'50 file; with iMark 2 a type from Nanjing 92 reads the 118'50 file and writes the zone-numbered file toLt picks |
| `QSpatialReference.Nanjing2008Pair` | QArcGISLib/QSpatialReference.cs:215-222 | with iMark 3, NJ2008NJ92 selects (NJ08_118'50.prj, NanJing92_118'50.prj) and NJ92NJ2008 the mirrored pair; with any other iMark both paths stay "" |
| `QSpatialReference.ReversedTypeSwapsPaths` | QArcGISLib/QSpatialReference.cs:169-280 | the table is symmetric: the reverse conversion selects the same two files swapped, for iMark 3 and for the iMark 1 / iMark 2 pairing |
| `QSpatialReference.UnhandledLeavesPathsEmpty` | QArcGISLib/QSpatialReference.cs:166-280 | both paths stay "" when iMark is not 1, 2 or 3, or when the type has no case for that iMark |
| `QSpatialReference.PrjPathOf` | QArcGISLib/QSpatialReference.cs:174 | the base directory followed by a `.prj` file name is a `.prj` path under the base directory |
| `QSpatialReference.ZoneFileIsPrjPath` | QArcGISLib/QSpatialReference.cs:174-278 | a zone file is "" (a zone other than 117 or 120) or a `.prj` path under the base directory, and so is a datum's 118'50 file |
| `QSpatialReference.AssignedPathsArePrjFiles` | QArcGISLib/QSpatialReference.cs:166-280 | every path the table selects is "" or the base directory followed by a `.prj` file name |
| `QSpatialReference.AlterSpatial` | QArcGISLib/QSpatialReference.cs:322-359 | the only failure is the index error of a type from Nanjing 92 given fewer than eight parameters |
| `QSpatialReference.AlterSpatialTargets` | QArcGISLib/QSpatialReference.cs:329-357 | each transformation type reaches one target: UnKnown a new unknown system, the six datum-shift types WGS84.prj, the types to Nanjing 92 and NJ2008NJ92 NanJing92_118'50.prj, NJ92NJ2008 NJ08_118'50.prj, and the types from Nanjing 92 the table's target for parameters [5], [6], [7] |
| `QWorkspace.GetExtension` | QArcGISLib/QWorkspace.cs:170 | the extension the classification reads is "" or a dot followed by at least one character, and is a suffix of the path |
| `QWorkspace.PathSplitsIntoDirectoryAndName` | QArcGISLib/QWorkspace.cs:121-122 | a path built as directory + separator + file name splits back into that directory and that file name |
| `QWorkspace.ExtensionOfAppended` | QArcGISLib/QWorkspace.cs:170 | a path ending in a dot and a run of characters that are neither dots nor separators has exactly that suffix as its extension |
| `QEnum.GdbTypeCode` | QArcGISLib/QEnum.cs:123-137 | the numeric values of EGdbType lie in 0..2; `OverloadsAgree` relates them to the private overload's code |
| `QWorkspace.GetDatabaseTypeCode` | QArcGISLib/QWorkspace.cs:168-188 | the private overload returns true exactly for a .gdb, .mdb or .shp extension (ignoring case) with a code in 0..2, and otherwise false with the ref code unchanged |
| `QWorkspace.GetDatabaseType` | QArcGISLib/QWorkspace.cs:196-216 | the public overload returns true exactly for a .gdb, .mdb or .shp extension (ignoring case), and otherwise false with the ref type unchanged |
| `QWorkspace.OverloadsAgree` | QArcGISLib/QWorkspace.cs:168-216 | both overloads accept the same paths, and the private code is the public type's code 0 (.gdb), 1 (.mdb), 2 (.shp); for .gdb and .mdb that code is not the enumeration's numeric value |
| `QWorkspace.ClassificationIgnoresCase` | QArcGISLib/QWorkspace.cs:196-216 | paths whose extensions differ only in letter case are classified alike |
| `QWorkspace.DatabaseTypeOfAppended` | QArcGISLib/QWorkspace.cs:196-216 | the type of a path with an appended extension is decided by that extension alone |
| `QWorkspace.AppendedGdbClassifies` | QArcGISLib/QWorkspace.cs:199-202 | any path ending in .gdb or .GDB is a file geodatabase |
| `QWorkspace.AppendedMdbClassifies` | QArcGISLib/QWorkspace.cs:203-206 | any path ending in .mdb is a personal geodatabase |
| `QWorkspace.AppendedShpClassifies` | QArcGISLib/QWorkspace.cs:207-210 | any path ending in .shp or .Shp is a shapefile |
| `QWorkspace.OpenWorkSpaceTyped` | QArcGISLib/QWorkspace.cs:31-62 | the type's factory opens the path, except that a shapefile opens the directory containing it |
| `QWorkspace.OpenWorkSpace` | QArcGISLib/QWorkspace.cs:71-96 | an empty path gives "文件路径为空！" and an unsupported extension "数据类型暂不支持！", before any factory is used; a factory is called exactly for a non-empty supported path |
| `QWorkspace.CreateWorkSpace` | QArcGISLib/QWorkspace.cs:106-158 | the same two guards with the same messages, checked before any factory is used; a factory is called exactly for a non-empty supported path |
| `QWorkspace.CreateRoutesLikeOpen` | QArcGISLib/QWorkspace.cs:37-49 | CreateWorkSpace fails for the same paths and with the same message as OpenWorkSpace, and otherwise uses the same factory; a shapefile is opened through its directory by both |
| `QWorkspace.ShapefileOpensItsDirectory` | QArcGISLib/QWorkspace.cs:141-145 | a shapefile path directory + separator + name.shp makes both operations open that directory |
| `QField.KeptFields` | QArcGISLib/QField.cs:45-55 | the listed fields are at most the schema's fields |
| `QField.KeptFieldsAreTheKeptOnes` | QArcGISLib/QField.cs:47-48 | a field is listed exactly when it is in the schema, its upper-cased name is not OBJECTID, and that name does not contain SHAPE |
| `QField.KeptFieldsDistribute` | QArcGISLib/QField.cs:45-55 | the filter works field by field, so the listed fields keep the schema's order |
| `QField.ObjectIdDropped` | QArcGISLib/QField.cs:47 | the object-id column is dropped whatever the case of its name |
| `QField.ShapeColumnsDropped` | QArcGISLib/QField.cs:48 | any field whose name starts with Shape, SHAPE or shape is dropped |
| `QField.NoShapeWithoutS` | QArcGISLib/QField.cs:48 | a text without the letter S cannot contain SHAPE |
| `QField.SimilarNamesKept` | QArcGISLib/QField.cs:47-48 | only the exact name OBJECTID is excluded: OBJECTID_1 is listed |
| `QField.GetFields` | QArcGISLib/QField.cs:30-63 | a null workspace and a missing feature class give false with their two messages and leave both lists alone; otherwise the name and the alias of every listed field are appended to the two lists, and the result is true |
| `QField.AppendKeptFields` | QArcGISLib/QField.cs:45-55 | the field loop appends the names of the listed fields to one list and their aliases to the other |
| `QField.GetFieldsLockstep` | QArcGISLib/QField.cs:50-53 | both lists grow by the same amount, and position k of the added parts names the same field in both |
| `QField.NewField` | QArcGISLib/QField.cs:88-94 | the new field has the requested name, type and nullability, is editable, and its alias is the requested alias or, when that is "", the name |
| `QField.WithField` | QArcGISLib/QField.cs:85-96 | afterwards the name is found, and the old schema is a prefix of the new one |
| `QField.AddFieldOnlyWhenAbsent` | QArcGISLib/QField.cs:85-96 | a present name leaves the schema unchanged; an absent name adds one field at the end, editable, with the requested type and nullability and the alias defaulting to the name |
| `QField.AddFieldIdempotent` | QArcGISLib/QField.cs:126-137 | a second AddField with the same name changes nothing, whatever its other arguments |
| `QField.AddField` | QArcGISLib/QField.cs:77-106 | a null table gives false with the exception's message and changes nothing; otherwise true with the caller's message, the schema becomes WithField of the old one, and when a field is added every row gets a null in the new column |
| `QField.SetColumnReadsBack` | QArcGISLib/QField.cs:164-169 | after the update, column i reads the value in every row and every other column keeps its value |
| `QField.SetColumnWhereAll` | QArcGISLib/QField.cs:187-210 | with a where clause every row satisfies, the filtered update is the full one |
| `QField.SetColumnWhereTouchesOnlySelected` | QArcGISLib/QField.cs:196-201 | rows the clause does not select are untouched, and the rows it selects read the value |
| `QField.SetFieldValue` | QArcGISLib/QField.cs:158-176 | a null feature class gives false and changes nothing; otherwise the result is true exactly when there are no features or the field exists; then every feature gets the value in that column; a missing field throws on the first feature and nothing is written |
| `QField.Matching` | QArcGISLib/QField.cs:192 | the selected features are exactly the rows the where clause holds for, in cursor order |
| `QField.StoreMatched` | QArcGISLib/QField.cs:196-201 | exactly the listed rows get the value in the column; the other rows are kept |
| `QField.MatchedRowsUpdated` | QArcGISLib/QField.cs:192-201 | updating exactly the matched rows is the filtered column update |
| `QField.SetFieldValueWhere` | QArcGISLib/QField.cs:187-210 | a null feature class gives false and changes nothing; otherwise the result is true exactly when some feature matches and the field exists; then the matched features, and only they, get the value; otherwise nothing changes |
| `DeleteScan.ScanAll` | QArcGISLib/QFeatureClass.cs:916-944 | a scan never adds items: what it leaves is at most the collection it walked |
| `DeleteScan.Reported` | QArcGISLib/QFeatureClass.cs:945-953 | after the loop an error forces false, and a named delete reports true only when it deleted |
| `DeleteScan.ResumeStep` | QArcGISLib/QFeatureClass.cs:916-944 | one iteration of the loop, taken at position i: delete-all deletes or notes an error and goes on; a named match is deleted and stops the scan, or notes an error and stops or goes on; any other item is kept |
| `DeleteScan.FirstMatch` | QArcGISLib/QFeatureClass.cs:929 | an index of an item with the name, or -1 (where it is first, and that -1 means none, is FirstMatchFirst) |
| `DeleteScan.FirstMatchFirst` | QArcGISLib/QFeatureClass.cs:929 | no item before FirstMatch has the name, and -1 is returned exactly when no item has it |
| `DeleteScan.DeleteAllKeepsUndeletable` | QArcGISLib/QFeatureClass.cs:918-928 | with an empty name exactly the undeletable items remain, and the result is true exactly when every item was deletable |
| `DeleteScan.DeleteNamedFirstMatch` | QArcGISLib/QFeatureClass.cs:929-942 | a scan that stops at any match touches only the first item of that name: it is deleted when deletable, and otherwise nothing changes and an error is noted |
| `DeleteScan.DeleteNamedReports` | QArcGISLib/QFeatureClass.cs:929-953 | no match, or an undeletable first match, leaves the collection unchanged and reports false; a deletable first match is removed and reports true |
| `DeleteScan.DeleteNamedSparesOthers` | QArcGISLib/QFeatureClass.cs:916-944 | a named scan never removes an item of another name, and removes at most one item |
| `DeleteScan.FirstDeletableMatch` | QArcGISLib/QFeatureClass.cs:1014-1021 | an index of a deletable item with the name, or -1 (where it is first, and that -1 means none, is FirstDeletableMatchFirst) |
| `DeleteScan.FirstDeletableMatchFirst` | QArcGISLib/QFeatureClass.cs:1014-1021 | no item before it is a deletable item of that name, and -1 is returned exactly when there is none |
| `DeleteScan.RemoveAtSlices` | QArcGISLib/QFeatureClass.cs:1016-1019 | removing position i leaves the items before i followed by the items after it |
| `DeleteScan.PastUndeletableRemoves` | QArcGISLib/QFeatureClass.cs:998-1028 | a scan past undeletable matches reports a deletion exactly when a deletable match exists, and then removes exactly that position |
| `DeleteScan.DeleteNamedPastUndeletable` | QArcGISLib/QFeatureClass.cs:998-1028 | a scan that goes on past undeletable matches deletes the first deletable match, if any, and nothing else |
| `DeleteScan.UndeletableMatchNoted` | QArcGISLib/QFeatureClass.cs:1014-1026 | that scan notes an error exactly when an undeletable match comes before the deleted one, or anywhere when nothing was deleted |
| `QFeatureClass.DeleteFeatureClass` | QArcGISLib/QFeatureClass.cs:899-960 | a null workspace gives false; otherwise the standalone classes become what the scan leaves, the result is the scan's report, and the datasets and tables are untouched |
| `DeleteScan.ScanNext` | QArcGISLib/QFeatureClass.cs:916-943 | one visit of the enumeration either ends the scan with the collection and flags of the whole scan, or keeps or deletes the item and leaves the rest of the scan to the next items |
| `QFeatureClass.DeleteFeatureClassOutcome` | QArcGISLib/QFeatureClass.cs:904-953 | an empty name removes every deletable class and reports true exactly when all were deletable; a name removes only the first class of that name, when it is deletable, reports true exactly then, and keeps every class of another name |
| `QFeatureClass.ScanDatasets` | QArcGISLib/QFeatureClass.cs:985-1037 | the dataset loop keeps every feature dataset: it only changes their subsets |
| `QFeatureClass.DeleteFeatureClassInDataset` | QArcGISLib/QFeatureClass.cs:969-1054 | a null workspace gives false; otherwise the feature datasets become what the dataset scan leaves, the result is its report, and the standalone classes and tables are untouched |
| `QFeatureClass.DeleteInNextDataset` | QArcGISLib/QFeatureClass.cs:987-1035 | one pass of the outer loop scans the subsets of a dataset of the requested name and leaves any other dataset alone; it stops exactly when the dataset scan stops, with the datasets and flags the whole scan ends with, and otherwise resumes the scan at the next dataset |
| `QFeatureClass.SubsetScanKeepsOthers` | QArcGISLib/QFeatureClass.cs:1014-1026 | a named subset scan matches on the alias name and removes only classes with that alias |
| `QFeatureClass.ScanDatasetsKeepsOthers` | QArcGISLib/QFeatureClass.cs:985-1037 | every feature dataset keeps its place and name; only datasets named dsName can lose subsets, and then only classes with the alias |
| `QFeatureClass.UndeletableAliasForcesFalse` | QArcGISLib/QFeatureClass.cs:1022-1046 | an undeletable class with the alias, met before any deletable one, forces the result to false whatever the scan does afterwards |
| `QFeatureClass.NonEmpty` | QArcGISLib/QFeatureClass.cs:664-667 | a class is kept exactly when it holds at least one feature |
| `QFeatureClass.NonEmptyWithoutEmpty` | QArcGISLib/QFeatureClass.cs:666 | removing the first copy of an empty class leaves the non-empty classes as they were |
| `QFeatureClass.DropEmptyStep` | QArcGISLib/QFeatureClass.cs:655-668 | one removal of the backward loop keeps the non-empty part, shortens the list by one, and keeps the already-checked tail non-empty |
| `QFeatureClass.GetNotNullFeatureClass` | QArcGISLib/QFeatureClass.cs:649-669 | the backward List.Remove loop leaves exactly the non-empty classes, in their original order |
| `QFeatureClass.IsFeatrueClassNull` | QArcGISLib/QFeatureClass.cs:1098-1118 | the result is -1 exactly when the class is non-null and its search throws, 1 exactly when a first feature exists, and 0 otherwise (including a null class) |
| `QFeatureClass.CopyFeatureClass` | QArcGISLib/QFeatureClass.cs:1132-1229 | null classes give false with "复制要素类失败：要素类对象为空！"; no edit session gives false; an empty source gives true and a failing emptiness test false with its message, all without writing; otherwise every feature is copied with the source-index rule, the flushes come at the BeforeEveryThousandth points, and a throwing write gives false with the exception's message, rolls the rows back and keeps the added fields |
| `QFeatureClass.CreateClasses` | QArcGISLib/QFeatureClass.cs:369-393 | the standalone classes after the creation loop has handled k sources; `CreateStaysFailed`, `CreateClassesCovers` and `CreateClassesOnlyAdmitted` state its failure, coverage and what it appends, and `CreateFeatureClassesFrom` is proved equal to it |
| `QFeatureClass.CreateStaysFailed` | QArcGISLib/QFeatureClass.cs:388-392 | once a creation has failed the loop has returned: later source classes are not looked at |
| `QFeatureClass.CreateClassesCovers` | QArcGISLib/QFeatureClass.cs:369-393 | a completed loop leaves, for every source class the filter admits, a class of its name plus the suffix in the target |
| `QFeatureClass.CreateClassesOnlyAdmitted` | QArcGISLib/QFeatureClass.cs:373-383 | the loop only appends, and each appended class is new, empty, named by an admitted source class plus the suffix, and carries that class's fields |
| `QFeatureClass.CreateFeatureClasses` | QArcGISLib/QFeatureClass.cs:344-401 | a null workspace gives false with "要素工作空间为空，请检查！"; otherwise the target's standalone classes become the loop's result, and a failed creation gives false with "创建要素类[name]失败！"; datasets and tables are untouched |
| `QFeatureClass.CreateFeatureClassesFrom` | QArcGISLib/QFeatureClass.cs:369-393 | the loop leaves the standalone classes as CreateClasses over every source class, with "创建要素类[name]失败！" on the first failed creation; datasets and tables are untouched |
| `QFeatureClass.CreateNextClass` | QArcGISLib/QFeatureClass.cs:371-391 | one pass moves the classes from CreateClasses over i sources to CreateClasses over i + 1, failed exactly when that step fails |
| `QFeatureClass.CreateClassStepCovers` | QArcGISLib/QFeatureClass.cs:371-391 | one pass keeps every class name the target had and leaves an admitted new name among its classes or inside one of its datasets |
| `QFeatureClass.CreateClassStepOnlyAdmitted` | QArcGISLib/QFeatureClass.cs:371-391 | one pass leaves the classes alone or appends one empty, admitted, creatable class named and shaped after its source |
| `QFeatureClass.CopyClassStep` | QArcGISLib/QFeatureClass.cs:313-324 | one class never adds or removes a dataset |
| `QFeatureClass.CopyClasses` | QArcGISLib/QFeatureClass.cs:312-325 | the class copy never adds or removes a dataset |
| `QFeatureClass.CopyClassesOnlyCopied` | QArcGISLib/QFeatureClass.cs:312-325 | the datasets keep their order, names, flags and classes; only the target dataset gains classes, each an empty, creatable copy of a source class under its name plus the suffix |
| `QFeatureClass.CopyClassesAddsOne` | QArcGISLib/QFeatureClass.cs:318-324 | one class leaves the datasets alone or adds its copy, under its name plus the suffix, to the target dataset, which exists and whose engine creates that name |
| `QFeatureClass.SubsetsGrowKeepNames` | QArcGISLib/QFeatureClass.cs:318 | a class name NameExists finds inside the datasets is still found once classes and datasets are only added |
| `QFeatureClass.CopyClassesCovers` | QArcGISLib/QFeatureClass.cs:312-326 | a copy that got through leaves, for each class of the source dataset, a feature class of its name plus the suffix in the target workspace, standalone or in a dataset |
| `QFeatureClass.CopyClassesLastCovered` | QArcGISLib/QFeatureClass.cs:316-324 | a copy that got past a class has left a feature class of that class's new name in the target workspace |
| `QFeatureClass.CopyClassesStaysFailed` | QArcGISLib/QFeatureClass.cs:321-322 | once a creation has failed the copy has returned: later classes are not looked at |
| `QFeatureClass.CreateFeatureClassFromDS2DS` | QArcGISLib/QFeatureClass.cs:296-333 | the target's datasets become CopyClasses over the source dataset's classes: true with an empty message when the copy got through, false with the exception's message at the first class it could not create (there is no target dataset, or the engine refuses); standalone classes and tables are untouched |
| `QFeatureClass.CopyNextClass` | QArcGISLib/QFeatureClass.cs:313-324 | one pass moves the datasets from CopyClasses over i classes to CopyClasses over i + 1, failed exactly when that step fails |
| `RowCopy.FillStep` | QArcGISLib/QFeatureClass.cs:1179-1206 | one source field adds at most one column to the target schema, and the buffer keeps one value per target field |
| `RowCopy.Fill` | QArcGISLib/QFeatureClass.cs:1179-1206 | the field loop never shrinks the target schema, and the buffer keeps one value per target field |
| `RowCopy.TargetIndexNeverThrows` | QArcGISLib/QFeature.cs:605-618 | looking a freshly added field up in the target never writes past the buffer: the field loop with that rule never throws |
| `RowCopy.TargetIndexCopiesByName` | QArcGISLib/QTable.cs:440-463 | with the target lookup, every editable non-DBNull source value whose field is present or appended can be read back from the buffer at the column of its own name |
| `RowCopy.FieldCopiedByName` | QArcGISLib/QTable.cs:440-463 | the same for one source field, by induction over the field loop |
| `RowCopy.LastFieldCopied` | QArcGISLib/QTable.cs:440-463 | the field just visited, when copyable and writable, ends with its value in the column of its name |
| `RowCopy.FieldStaysCopied` | QArcGISLib/QTable.cs:440-463 | a value already in the column of its name stays there while a field of another name is visited |
| `RowCopy.SourceIndexMisplaces` | QArcGISLib/QFeatureClass.cs:1197 | source fields [A, B] with values ["a", DBNull] copied into a target holding only B: A is appended after B, but "a" is written at A's source index 0, which is B's column |
| `RowCopy.TargetIndexPlaces` | QArcGISLib/QFeature.cs:605-618 | the same row with the target lookup writes "a" into A's column |
| `RowCopy.SourceIndexThrows` | QArcGISLib/QFeatureClass.cs:1197-1204 | with the source lookup, a lone copyable second field copied into an empty target is written past the end of the buffer, and the write throws |
| `RowCopy.StartNamesStay` | QArcGISLib/QFeatureClass.cs:1188-1198 | a name present in the target schema before the field loop is still found there, at the same index |
| `RowCopy.FillField` | QArcGISLib/QFeatureClass.cs:1181-1205 | one pass of the field loop on the table object is one FillStep; the table's rows are kept, or padded by one null column when a field was added |
| `RowCopy.FillBuffer` | QArcGISLib/QFeatureClass.cs:1179-1206 | the field loop of one row on the table object is Fill over all source fields |
| `RowCopy.AfterEveryThousandthCount` | QArcGISLib/QFeature.cs:634-636 | with the after-insert test, n inserts are flushed n / 1000 times inside the loop, exactly after every 1000th insert |
| `RowCopy.LoopFlushes` | QArcGISLib/QFeatureClass.cs:1209 | the insert counts after which the loop calls `Flush()` on the current row's cursor; `LoopFlushesAccepted` states each lies in 1..n and passes the flush test, and `AfterEveryThousandthCount` counts them for the after-insert rule |
| `RowCopy.FlushPoints` | QArcGISLib/QFeatureClass.cs:1209-1214 | the in-loop flushes plus the final one; `FlushPointsWithinLoop`, `AfterEveryThousandthFlushesLast` and `BeforeEveryThousandthMissesLast` state where they fall and whether the last insert is flushed |
| `RowCopy.LoopFlushesAccepted` | QArcGISLib/QFeatureClass.cs:1209 | every in-loop flush comes after an insert count between 1 and n that the flush test accepts |
| `RowCopy.FlushPointsWithinLoop` | QArcGISLib/QFeatureClass.cs:1209-1214 | every flush of a completed loop comes after an insert between the first and the last |
| `RowCopy.AfterEveryThousandthFlushesLast` | QArcGISLib/QFeature.cs:634-641 | with the after-insert test, the last insert of a non-empty loop is always flushed |
| `RowCopy.BeforeEveryThousandthMissesLast` | QArcGISLib/QFeatureClass.cs:1209-1214 | with CopyFeatureClass's test, when the row count is a positive multiple of 1000 no flush comes at or after the last insert |
| `RowCopy.BeforeEveryThousandthAtOneThousand` | QArcGISLib/QFeatureClass.cs:1209-1214 | 1000 copied rows are flushed after the 999th insert and never after the 1000th |
| `RowCopy.CopyStep` | QArcGISLib/QFeatureClass.cs:1170-1209 | one row: fill a fresh buffer, maybe assign the shape, insert it; `CopyOne` states that one pass on the table object is this step, and `TargetIndexInsertsEveryRow` and `ShapedStep` state when it inserts |
| `RowCopy.AssignShape` | QArcGISLib/QFeature.cs:629-632 | a feature without a shape leaves the buffer alone; a successful assignment needs a shape field and puts the feature's shape in it |
| `RowCopy.Copy` | QArcGISLib/QFeatureClass.cs:1166-1212 | the target after the row loop has handled k features; `CopyStaysThrown`, `CopyWidens` and `TargetIndexInsertsEveryRow` state that a throw ends it, that the schema only grows and when every row is inserted, and `CopyRows` is proved equal to it |
| `RowCopy.CopyStaysThrown` | QArcGISLib/QFeatureClass.cs:1220-1226 | once a row has thrown the loop is over: later rows are not looked at |
| `RowCopy.CopyWidens` | QArcGISLib/QFeatureClass.cs:1168-1212 | the row loop only ever appends fields to the target schema |
| `RowCopy.Features` | QArcGISLib/QFeatureClass.cs:1166-1167 | the source cursor yields one feature per row, carrying the class's fields and that row's values |
| `RowCopy.TargetIndexInsertsEveryRow` | QArcGISLib/QTable.cs:437-466 | without the shape assignment, the target lookup never throws, and every source row is inserted |
| `RowCopy.CopyOne` | QArcGISLib/QFeatureClass.cs:1170-1209 | one row on the table object is one CopyStep: fill a fresh buffer, maybe assign the shape, insert it |
| `RowCopy.CopyNextRow` | QArcGISLib/QFeatureClass.cs:1166-1209 | one pass of the row loop moves the table from Copy over i rows to Copy over i + 1 rows, keeping its name |
| `RowCopy.FlushInLoop` | QArcGISLib/QFeatureClass.cs:1209 | after insert number i + 1 the recorded flushes are LoopFlushes for i + 1 rows |
| `RowCopy.FlushAfterLoop` | QArcGISLib/QFeatureClass.cs:1214 | after a completed loop the recorded flushes are the FlushPoints of the row count |
| `RowCopy.CopyRows` | QArcGISLib/QFeatureClass.cs:1166-1214 | the table ends as Copy over all rows; a completed loop counts every row and flushes at FlushPoints; a throw stops it after 1 to n rows, with only the in-loop flushes before it |
| `QDataset.FirstExcluded` | QArcGISLib/QDataset.cs:123-126 | the index of the first dataset the name filter rejects, with every earlier one admitted; -1 exactly when the filter admits them all |
| `QDataset.GetDataset` | QArcGISLib/QDataset.cs:105-137 | a null workspace gives false with "工作空间为空！" and the list unchanged; otherwise the call never returns exactly when the filter rejects some dataset, and when it returns, every dataset has been appended to the list in enumeration order |
| `QDataset.GetDatasetEmptyFilter` | QArcGISLib/QDataset.cs:123 | an empty filter rejects no dataset, so GetDataset without names always returns |
| `QDataset.GetDatasetHangsOnExcluded` | QArcGISLib/QDataset.cs:121-126 | a workspace holding one dataset "A", listed with the filter ["B"], has its first dataset excluded, so GetDataset never returns |
| `QDataset.AdmittedOnlyKeepsAdmitted` | QArcGISLib/QDataset.cs:121-128 | the intended listing keeps exactly the datasets the filter admits, and every dataset for an empty filter |
| `QDataset.GetDatasetIntended` | QArcGISLib/QDataset.cs:105-137 | as intended: a null workspace gives false with "工作空间为空！" and the list unchanged; otherwise true, always, with the admitted datasets appended in enumeration order |
| `QDataset.GetDatasetAgreesWhenItReturns` | QArcGISLib/QDataset.cs:121-128 | wherever the written loop returns, it lists what the intended one lists |
| `QDataset.DatasetNameFound` | QArcGISLib/QDataset.cs:214 | NameExists for a feature dataset holds exactly when the first-match scan finds a dataset of that name |
| `QDataset.OpenOrCreate` | QArcGISLib/QDataset.cs:214-237 | a dataset handed back always carries the requested name |
| `QDataset.OpenOrCreateDecision` | QArcGISLib/QDataset.cs:214-237 | an absent name is created; a present one is opened with nothing changed, or with overwrite deleted and created again when it can be deleted, and otherwise refused with "已存在数据集[name]不可删除" and nothing changed |
| `QDataset.OpenOrCreateFinds` | QArcGISLib/QDataset.cs:214-237 | a dataset handed back is one the workspace then holds |
| `QDataset.OpenOrCreateSparesOthers` | QArcGISLib/QDataset.cs:214-237 | datasets of other names and undeletable datasets are never removed, and the workspace gains or loses at most one dataset |
| `QDataset.CreateFeatureDataset` | QArcGISLib/QDataset.cs:189-244 | a null workspace gives null with "工作空间为空！", an empty name null with "数据集名称为空！" and no change; otherwise the outcome is OpenOrCreate's; feature classes and tables are untouched |
| `QDataset.CreateFeatureDatasetLike` | QArcGISLib/QDataset.cs:255-313 | a null workspace or source dataset gives null with its message; otherwise OpenOrCreate on the source's name plus the suffix; feature classes and tables are untouched |
| `QDataset.GetFeatureDatasets` | QArcGISLib/QDataset.cs:58-92 | the IFeatureDataset overload of GetDataset: false with "工作空间为空！" for a null workspace, else true with every feature dataset appended in order and an empty message |
| `QDataset.CreateDatasetStepShape` | QArcGISLib/QDataset.cs:349-374 | one source dataset leaves the target's datasets as they were, or appends one fresh dataset of an admitted, absent name the engine creates; beyond that it only adds classes copied from the source dataset, only to the dataset of its new name, and none without containClasses; a step that goes on has a dataset of every admitted name the engine creates |
| `QDataset.CreateDatasetStepCopiesClasses` | QArcGISLib/QDataset.cs:368-374 | with containClasses, a step for an admitted name that goes on leaves, for each class of the source dataset, a feature class of its name plus the suffix in the target workspace |
| `QDataset.CreateDatasetStepKeepsNames` | QArcGISLib/QDataset.cs:349-374 | one pass keeps every dataset name the target had |
| `QDataset.CreateDatasets` | QArcGISLib/QDataset.cs:347-376 | the datasets after the loop has handled k sources; `CreateDatasetsStaysStopped`, `CreateDatasetsOnlyAdmitted`, `CreateDatasetsCovers` and `CreateDatasetsCoversClasses` state its stop, what it adds and its coverage, and `CreateEach` is proved equal to it |
| `QDataset.CreateDatasetsStaysStopped` | QArcGISLib/QDataset.cs:359-373 | once the loop has returned false, later source datasets are not looked at |
| `QDataset.CreateDatasetsOnlyAdmitted` | QArcGISLib/QDataset.cs:347-375 | the loop keeps every dataset the target had, in place, with its name, flag and classes; each dataset it adds is deletable, admitted, creatable and named after a source dataset plus the suffix; each class it adds anywhere is an empty copy of a class of the source dataset whose new name is that dataset's, and only with containClasses |
| `QDataset.CreateDatasetsWithoutClasses` | QArcGISLib/QDataset.cs:347-375 | without containClasses the datasets the target had are left exactly as they were, and each one added is fresh and empty |
| `QDataset.CreateDatasetsCovers` | QArcGISLib/QDataset.cs:347-375 | a loop that got through leaves a dataset of every admitted new name the engine can create |
| `QDataset.CreateDatasetStepKeepsClassNames` | QArcGISLib/QDataset.cs:349-374 | one pass keeps every feature class name held inside the target's datasets |
| `QDataset.CreateDatasetsCoversClasses` | QArcGISLib/QDataset.cs:347-375 | with containClasses, a loop that got through leaves, for each class of each admitted source dataset, a feature class of its name plus the suffix in the target workspace |
| `QDataset.CreateOneDataset` | QArcGISLib/QDataset.cs:349-374 | one pass of the loop body on the target workspace is one CreateDatasetStep, with its `continue`, the `return false` of a failed creation and that of a failed class copy into the dataset of the new name; standalone classes and tables do not change |
| `QDataset.CreateFeatureDatasets` | QArcGISLib/QDataset.cs:325-383 | a null workspace gives false with "要素工作空间为空，请检查！"; otherwise the target's datasets, classes inside them included, become the loop's result over the source's datasets, true with "" when it got through and false with the stopping message when not; standalone feature classes and tables are untouched |
| `QDataset.CreateEach` | QArcGISLib/QDataset.cs:347-376 | the loop on the target workspace computes CreateDatasets over the whole list |
| `QDataset.DeleteDataset` | QArcGISLib/QDataset.cs:393-456 | a null workspace gives false; otherwise the datasets left and the result are those of the dataset scan; feature classes and tables are untouched |
| `QDataset.DeleteDatasetOutcome` | QArcGISLib/QDataset.cs:398-449 | an empty name deletes every deletable dataset, keeps exactly the undeletable ones, and reports true iff all were deletable; a name removes only the first dataset of that name when it can be deleted, reports true iff it did, and keeps every dataset of another name |
| `Search.FirstTrue` | QArcGISLib/QExist.cs:378-389 | walking comparisons in order, the result is the first that holds with every earlier one false, NotFound exactly when all are false, and a throw only when some comparison throws |
| `Search.FirstTrueSkips` | QArcGISLib/QExist.cs:378-389 | when every comparison before position i is false, the walk's outcome is decided at i: a throw there is a throw, a hit there is found at i |
| `Search.LastTrue` | QArcGISLib/QFeature.cs:133-143 | walking comparisons from the last down, the result is the first hit met with every later one false, NotFound exactly when all are false, and a throw only when some comparison throws |
| `Search.LastTrueSkips` | QArcGISLib/QFeature.cs:133-143 | when every comparison after position i is false, the backward walk is decided at i |
| `Search.WindowStep` | QArcGISLib/QFeature.cs:130-143 | one source never widens the target window |
| `Search.WindowMatches` | QArcGISLib/QFeature.cs:128-145 | the loop over sources never widens the target window |
| `Search.WindowStepKept` | QArcGISLib/QFeature.cs:130-143 | one source keeps the matching invariant: the caller's entries stay in front, each record shortens the window by one, the flag is set exactly when something was recorded, and every record matches some source |
| `Search.WindowMatchesKept` | QArcGISLib/QFeature.cs:128-146 | from a full window, after any number of sources: at most one record per source, the m-th record taken from the first \|targets\| - m targets and equal to some source, and the flag set exactly when something was recorded |
| `Search.WindowStaysThrown` | QArcGISLib/QFeature.cs:148-152 | once a comparison has thrown, later sources change nothing |
| `Search.WindowStepRecordsMatch` | QArcGISLib/QFeature.cs:130-143 | a source equal to a target still inside the window makes the step record one target, set the flag and shrink the window by one, unless a comparison throws |
| `Search.WindowMatchesComplete` | QArcGISLib/QFeature.cs:128-146 | from a full window, a loop that neither threw nor recorded anything saw every non-null source differ from every target |
| `Search.SearchWindow` | QArcGISLib/QFeature.cs:133-143 | the inner loop returns the backward walk over the window: the last target in it that compares equal, or the throw met first |
| `Search.MatchWindow` | QArcGISLib/QFeature.cs:128-146 | the nested loops return the records, flag and throw of the shrinking-window matching |
| `Search.MatchSource` | QArcGISLib/QFeature.cs:130-143 | one pass of the outer loop returns the window, records, flag and throw of WindowStep for that source |
| `QCompare.CompareGeometry` | QArcGISLib/QCompare.cs:29-76 | each method is the engine's relation of A on B, and Within holds when either shape lies within the other |
| `QCompare.WithinIsSymmetric` | QArcGISLib/QCompare.cs:69-74 | Within gives the same answer whichever shape comes first |
| `QCompare.CompareGeometryConsultsOneRelation` | QArcGISLib/QCompare.cs:31-68 | every method consults only its own relation at (A, B): two engines that agree there agree on the result |
| `QCompare.TextAt` | QArcGISLib/QCompare.cs:90 | a value's text exists exactly for an index in range, and is its ToString, "" for DBNull |
| `QCompare.FieldsAgreeAt` | QArcGISLib/QCompare.cs:113-121 | the field loop of the index overload; `FieldsAgreeAtPasses` and `FieldsAgreeAtFails` state when it passes, returns false or throws |
| `QCompare.FieldsAgreeAtPasses` | QArcGISLib/QCompare.cs:87-94 | the field loop passes exactly when every pair of columns exists and prints the same text |
| `QCompare.FieldsAgreeAtFails` | QArcGISLib/QCompare.cs:87-94 | the field loop returns false (not a throw) exactly when the first pair that does not agree has both columns present |
| `QCompare.IsFeatureEqual` | QArcGISLib/QCompare.cs:84-100 | two nulls are equal; one null throws; true means every named field agrees as text and both shapes exist and are equal |
| `QCompare.IsFeatureEqualStopsAtField` | QArcGISLib/QCompare.cs:87-94 | a differing named field, every earlier one agreeing, makes the result false whatever the engine's relations |
| `QCompare.IsFeatureEqualAt` | QArcGISLib/QCompare.cs:110-127 | two nulls are equal; a null source against a feature throws; a feature against a null target throws, except with no columns and a shapeless source, which is false because the shape test reads the source first; true means every column pair agrees as text and both shapes exist and are equal |
| `QCompare.IsFeatureEqualOverloadsAgree` | QArcGISLib/QCompare.cs:84-127 | with both shapes present the two overloads agree once names are resolved to columns; when the fields agree and a shape is missing, the name overload throws and the index overload says false |
| `QCompare.IsFeatureEqualAtStopsAtField` | QArcGISLib/QCompare.cs:113-121 | a differing column decides the index overload as false before any geometry is compared |
| `QCompare.Resolved` | QArcGISLib/QFeature.cs:104-121 | each name resolves to its first column, or to the int array's default 0 when absent |
| `QCompare.ResolveIndices` | QArcGISLib/QFeature.cs:112-127 | succeeds exactly when every name is found in both first rows or in neither, and then yields the resolved columns on both sides |
| `QExist.IsObjectInWorkspace` | QArcGISLib/QExist.cs:30-129 | false for a null workspace; otherwise NameExists for the same type, and for the feature-class type when the type is not one the switch lists |
| `QExist.IsObjectInWorkspaceUnlisted` | QArcGISLib/QExist.cs:124-126 | any two unlisted types get the feature-class answer, and no other listed type shares that lookup |
| `QExist.IsFeatureClassInWorkspace` | QArcGISLib/QExist.cs:226-254 | true iff the workspace is not null and some standalone feature class has that name |
| `QExist.IsFeatureClassInDataset` | QArcGISLib/QExist.cs:167-217 | true iff some feature dataset of that name holds a class whose alias name (not its name) is the one asked for; a null workspace gives false |
| `QExist.InAllSubsets` | QArcGISLib/QExist.cs:283-296 | a name occurs among all datasets' subsets iff it occurs among one dataset's |
| `QExist.IsFeatureClassInAllWorkspace` | QArcGISLib/QExist.cs:262-306 | true iff the workspace is not null and the name is a standalone feature class or a subset of some feature dataset |
| `QExist.IsFeatureInFeatureClass` | QArcGISLib/QExist.cs:317-356 | false with nothing found for a null class, a null target or no compared fields; otherwise true iff the first row whose comparison decides is a match, and that row is the feature handed back |
| `QExist.RemoveMatchedAt` | QArcGISLib/QExist.cs:378-388 | List.Remove of the matched target removes the entry at the matched position, since no earlier entry is that target |
| `QExist.RemoveFirstCopyAt` | QArcGISLib/QExist.cs:385 | List.Remove of an entry with no earlier copy removes exactly that entry |
| `QExist.FirstFoundIsFirstCopy` | QArcGISLib/QExist.cs:378-382 | when equal entries compare alike, the first entry found has no copy before it |
| `QExist.ListStepConserves` | QArcGISLib/QExist.cs:378-389 | one row keeps the walk conserved |
| `QExist.ListMatchesConserve` | QArcGISLib/QExist.cs:376-392 | after any number of rows: the caller's earlier found entries stay in front, the result and the found list grow together by at most one per row, every target is either still in the caller's list or moved to the found list, never both nor lost, and each returned feature equals the target beside it |
| `QExist.FirstEqualTarget` | QArcGISLib/QExist.cs:378-389 | the inner loop returns the first target the row equals, or the throw met first |
| `QExist.IsFeatureListInFeatureClass` | QArcGISLib/QExist.cs:366-401 | a null class or an empty target list gives an empty result and touches nothing; otherwise the result, the caller's list and the found list are those of the row-by-row walk |
| `QExist.ListMatchesStayThrown` | QArcGISLib/QExist.cs:396-399 | once a comparison has thrown, later rows change nothing |
| `QTable.GetTable` | QArcGISLib/QTable.cs:109-143 | nothing for a null workspace or an empty name; otherwise a table exactly when one has that name, and then the first of that name |
| `QTable.GetNotNullTable` | QArcGISLib/QTable.cs:206-220 | keeps exactly the tables with rows, in their order |
| `QTable.IsNullTable` | QArcGISLib/QTable.cs:227-235 | a null table or one without rows; `IsNullTableIn` applies it to the first table of a name, and `CopyTable` returns true at once for a source it holds null or empty |
| `QTable.IsNullTableIn` | QArcGISLib/QTable.cs:243-253 | false exactly when the workspace is not null, the name is not empty, and the first table of that name has rows |
| `QTable.FirstNamedIsUnique` | QArcGISLib/QTable.cs:128-131 | only one position holds the first table of a name |
| `QTable.NonNullTableSurvives` | QArcGISLib/QTable.cs:206-253 | a table the workspace test calls non-empty is kept by GetNotNullTable |
| `QTable.AttributeFields` | QArcGISLib/QTable.cs:352-360 | the kept fields are exactly the source's non-geometry fields, never more of them |
| `QTable.AttributeFieldsAppend` | QArcGISLib/QTable.cs:352-360 | the field filter keeps the order: it distributes over concatenation |
| `QTable.AttributeFieldsOfAttributes` | QArcGISLib/QTable.cs:352-360 | a schema without geometry fields is copied whole |
| `QTable.CopyAttributeFields` | QArcGISLib/QTable.cs:352-360 | the field loop builds exactly the source's non-geometry fields in order |
| `QTable.CreateTable` | QArcGISLib/QTable.cs:331-368 | nothing for a null workspace or table; otherwise a new empty table, named by the argument or else the source, holding the source's non-geometry fields, appended to the workspace when the engine creates it, and nothing with the workspace unchanged when it refuses |
| `QTable.CreateTablesLoop` | QArcGISLib/QTable.cs:291-314 | the tables after the loop has handled k sources; `CreateTablesStaysFailed`, `CreateTablesTouched`, `CreateTablesCovers` and `CreateTablesOnlyAdmitted` state its failure, result, coverage and what it appends, and `CreateTablesFrom` is proved equal to it |
| `QTable.CreateTablesStaysFailed` | QArcGISLib/QTable.cs:304-308 | once a creation has failed, later source tables are not looked at |
| `QTable.CreateTablesTouched` | QArcGISLib/QTable.cs:291-315 | in a loop that did not fail, a target table has been opened or created exactly when the filter admitted some source table |
| `QTable.CreateTablesCovers` | QArcGISLib/QTable.cs:291-314 | a loop that did not fail leaves a table of every admitted new name in the target |
| `QTable.CreateTablesOnlyAdmitted` | QArcGISLib/QTable.cs:291-314 | the loop only appends, and each appended table is new, empty, admitted, named after a source table plus the suffix, and holds that table's non-geometry fields |
| `QTable.CreateTables` | QArcGISLib/QTable.cs:266-322 | a null workspace gives false with "工作空间为空，请检查！"; no non-empty source table gives true with nothing changed; otherwise the target's tables become the loop's result, with "创建新表[name]失败" on a failed creation and otherwise true exactly when some table was opened or created |
| `QTable.CreateTablesFrom` | QArcGISLib/QTable.cs:291-314 | the loop leaves the tables as CreateTablesLoop over every source table, with "创建新表[name]失败" on the first failed creation and otherwise true exactly when some table was opened or created; classes and datasets are untouched |
| `QTable.CreateNextTable` | QArcGISLib/QTable.cs:293-312 | one pass moves the tables from CreateTablesLoop over i sources to CreateTablesLoop over i + 1, failed exactly when that step fails |
| `QTable.CreateTableStepCovers` | QArcGISLib/QTable.cs:293-312 | one pass keeps every table name the target had and, when it goes on, leaves an admitted new name among the tables |
| `QTable.CreateTableStepOnlyAdmitted` | QArcGISLib/QTable.cs:293-312 | one pass leaves the tables alone or appends one empty, admitted, creatable table named after its source and holding its attribute fields |
| `QTable.AllExcludedIsFalse` | QArcGISLib/QTable.cs:296-299 | a filter admitting no non-empty source table leaves the target alone and makes the result false |
| `QTable.AllExcludedLoop` | QArcGISLib/QTable.cs:291-314 | the same for every prefix of the loop |
| `QTable.CopyTable` | QArcGISLib/QTable.cs:418-475 | null tables give false with "复制表格失败：表格对象为空！"; an empty source gives true with the target untouched; otherwise true, every source row inserted into the target by the row-copy loop with the target lookup, and the row count grows by the source's |
| `QTable.EditableNames` | QArcGISLib/QTable.cs:667-680 | the default compared names are exactly the names of the editable fields |
| `QTable.CollectEditableNames` | QArcGISLib/QTable.cs:667-680 | the loop collects exactly those names, in order |
| `QTable.RowFieldsAgree` | QArcGISLib/QTable.cs:709-716 | no columns means agreement without touching the target row; agreement on columns means the target exists and every pair prints the same text |
| `QTable.RowWindow` | QArcGISLib/QTable.cs:701-726 | the backward row loops with a given comparison; `AsWrittenRecordsNothing` states that with the written comparison it records nothing, and `FindSameRowIntendedComplete` that with the intended one a matching pair is always recorded |
| `QTable.FindSameRowWith` | QArcGISLib/QTable.cs:651-733 | the list guards, the null-first-row throws with "查找两个行集合相同的数据失败：" and the message, false on a name found in only one first row, and otherwise the found list, result and message of the backward row loops with the given comparison; the caller's message comes back unchanged unless a comparison throws |
| `QTable.AsWrittenRecordsNothing` | QArcGISLib/QTable.cs:709-721 | as written, the loops never record a row, never set the flag, and never shrink the window |
| `QTable.FindSameRow` | QArcGISLib/QTable.cs:651-733 | as written the result is true exactly when the target list is empty, the caller's found list is never extended, and the message is the caller's unless a comparison throws |
| `QTable.FindSameRowIntended` | QArcGISLib/QTable.cs:651-733 | as intended: with both lists non-empty, no null first row and every compared name resolving in both first rows, the found list, result and message are those of the backward row loops over the row comparison (RowWindow), the caller's message kept unless a comparison throws; it only appends, at most one row per source and per target; true means a row was recorded; every recorded row agrees with some source row on every compared column |
| `QTable.FindSameRowIntendedComplete` | QArcGISLib/QTable.cs:700-723 | as intended, a source row agreeing with some target row on every compared column makes the loop record a row and set the flag, unless a comparison throws |
| `QTable.FindSameRowMissesEqualRows` | QArcGISLib/QTable.cs:667-721 | one equal row on each side, compared on the field the defaults pick (its editable field "A", column 0 on both sides): as written nothing is found, as intended the target row is found |
| `QFeature.SearchFeature` | QArcGISLib/QFeature.cs:30-56 | whatever the cursor yields, the loop runs it out and the feature returned is null |
| `QFeature.FeatureWindow` | QArcGISLib/QFeature.cs:112-146 | the nested backward loops of `FindSameFeature` with the columns resolved from the first features; `FoundMatchesSource` and `FindSameFeatureComplete` state that what it records matches a source and that a matching pair is always recorded |
| `QFeature.FindSameFeature` | QArcGISLib/QFeature.cs:95-153 | the list guards; a null first row throws with "查找要素类中相同的要素集合失败：" and the message; a name found in only one first row gives false; otherwise the found list, result and message are those of the backward window loop over IsFeatureEqualAt (FeatureWindow), the caller's message kept unless a comparison throws; it only appends, at most one target per source and per target, each recorded target lying in the shrunk window and equal to some source |
| `QFeature.FindSameFeatureComplete` | QArcGISLib/QFeature.cs:128-146 | a non-null source equal to some target makes the window loop record a target and set the flag, unless a comparison throws |
| `QFeature.FoundMatchesSource` | QArcGISLib/QFeature.cs:128-146 | the window invariant read entry by entry of the caller's list: the m-th new entry lies in the first \|targets\| - m targets and matches some source |
| `QFeature.GetFeatureNumber` | QArcGISLib/QFeature.cs:310-318 | 0 for a null class, otherwise the feature count; `GetFeatureNumberAgreesWithNullTest` states it is 0 exactly when `IsFeatrueClassNull` says empty |
| `QFeature.GetFeatureNumberAgreesWithNullTest` | QArcGISLib/QFeature.cs:310-318 | the feature count is 0 exactly when the emptiness test says empty, and positive exactly when it says non-empty |
| `QFeature.WriteFeature2FeatureClass` | QArcGISLib/QFeature.cs:562-652 | an empty list gives false with "待写入的要素为空！", then a null class false with "待写入的要素类为空！", both before editing; otherwise the class's schema grows as the row-copy loop says, success leaves the loop's rows, the caller's message and a flush after every 1000th insert and at the end, and a throw rolls the rows back (added fields stay) with the exception's message |
| `QFeature.ShapeFieldIndexPrefix` | QArcGISLib/QFeature.cs:629-631 | a geometry field found in a prefix of a schema stays the first one in the whole |
| `QFeature.ShapedStep` | QArcGISLib/QFeature.cs:589-634 | one feature into a schema with a geometry field is inserted, and the geometry field stays where it was |
| `QFeature.ShapedTargetInsertsEveryFeature` | QArcGISLib/QFeature.cs:589-635 | into a feature class with a geometry field, every feature of the list is inserted and nothing throws |
| `Geodatabase.ValueString` | QArcGISLib/QCompare.cs:90 | a text value prints as itself and DBNull as the empty string |
| `Geodatabase.FindField` | QArcGISLib/QFeatureClass.cs:1185 | an index of a field of that name, or -1 (that it is the first and that -1 means none is FindFieldFirst) |
| `Geodatabase.FindFieldFirst` | QArcGISLib/QFeatureClass.cs:1185 | no field before the found index has the name, and -1 is returned exactly when no field has it |
| `Geodatabase.FindFieldFinds` | QArcGISLib/QFeatureClass.cs:1185 | the name of the field at k is found at k or at an earlier field of the same name |
| `Geodatabase.FindFieldAppend` | QArcGISLib/QFeature.cs:608-615 | appending a field never moves an existing name, and a new name is then found at the end |
| `Geodatabase.FindFieldPrefix` | QArcGISLib/QTable.cs:447-461 | a name found in a prefix of a schema is found at the same index in the whole |
| `Geodatabase.ShapeFieldIndex` | QArcGISLib/QFeature.cs:631 | the index of the first geometry field, -1 exactly when there is none |
| `Geodatabase.ShapeOf` | QArcGISLib/QFeature.cs:629 | a shape handed back is one of the feature's values |
| `Geodatabase.Upper` | QArcGISLib/QField.cs:47-48 | ToUpper keeps the length and maps each character by itself |
| `Geodatabase.Names` | QArcGISLib/QExist.cs:233-245 | the names of a list of feature classes, tables or feature datasets, position by position, read with the given name function (`IDataset.Name` of a class or table, the name of a feature dataset) |
| `Geodatabase.FirstNamed` | QArcGISLib/QTable.cs:122-135 | a record exactly when some record has that name, and then a record of the list with that name |
| `Geodatabase.AllSubsets` | QArcGISLib/QExist.cs:283-296 | every feature class inside any dataset is among them |
| `Geodatabase.Workspace.OpenFeatureClass` | QArcGISLib/QFeatureClass.cs:33-50 | a class exactly when the name is a standalone class or one inside a dataset, and then one of that name |
| `Geodatabase.RemoveFirst` | QArcGISLib/QFeatureClass.cs:666 | List.Remove shortens the list by one when the item is in it and leaves it alone otherwise (which item goes is RemoveFirstMultiset) |
| `Geodatabase.RemoveFirstMultiset` | QArcGISLib/QFeatureClass.cs:666 | exactly one copy of the item leaves the bag of items, when there is one, and nothing else changes in it |
| `Geodatabase.RemoveFirstBeyond` | QArcGISLib/QExist.cs:385 | removing an item that is not in a prefix leaves that prefix alone |
| `Geodatabase.RemoveFirstAt` | QArcGISLib/QFeatureClass.cs:655-667 | removing the first occurrence of the item at i leaves the items after i in place, shifted down by one |
| `QWorkspace.GetFileName` | QArcGISLib/QWorkspace.cs:122 | the file name is a suffix of the path with no separator in it |
| `QWorkspace.GetDirectoryName` | QArcGISLib/QWorkspace.cs:121 | the directory is a proper prefix of a non-empty path |
| `QWorkspace.ExtensionOfSuffix` | QArcGISLib/QWorkspace.cs:170 | a path ending in "." and a run of characters that are neither dots nor separators has exactly that extension |
| `QWorkspace.EqualsIgnoreCaseIsEquivalence` | QArcGISLib/QWorkspace.cs:199-210 | the case-insensitive comparison is reflexive, symmetric and transitive |
| `QWorkspace.ShapefileNameHasNoSeparator` | QArcGISLib/QWorkspace.cs:141-145 | appending ".shp" to a name without separators gives a name without separators |
| `QFeatureClass.DeleteSubsets` | QArcGISLib/QFeatureClass.cs:1014-1026 | the subset loop over one feature dataset deletes in place exactly what the subset scan removes and reports its flags; nothing outside that dataset changes |
| `RowCopy.FillExtends` | QArcGISLib/QFeatureClass.cs:1179-1206 | the field loop only ever appends to the target schema |
| `RowCopy.FillStaysThrown` | QArcGISLib/QFeatureClass.cs:1204 | once a write has thrown, the remaining fields are not looked at |
| `RowCopy.StepWritesOwnColumn` | QArcGISLib/QFeature.cs:605-618 | one step with the target lookup, on a copyable field present or appended, writes its value at the column of its own name |
| `RowCopy.StepKeepsOtherNames` | QArcGISLib/QFeature.cs:605-618 | one step with the target lookup leaves every other name at its index, with its value |

## Left out

- Floating point: doubles are reals, so rounding, overflow, infinities and NaN are not modelled. A division whose divisor can be zero (the GCJ-02 offset) is total and gives 0 there.
- Transcendental functions: sin, cos, sqrt, atan2, atan, exp, tan and log are uninterpreted parameters. No property depends on their values.
- Field-name lookup: the engine's `FindField` ignores case; the model's `Geodatabase.FindField` compares names exactly.
- Cursors: an enumerator or search cursor is the corresponding list, read as it stood when the loop began. A cursor that sees its own inserts (`CopyTable` with the same table as source and target) is not modelled.
- Exception messages: the text of an engine exception is a parameter (`exceptionMessage`). Which engine call throws is modelled only where the source's own code makes it throw (a null dereference, an index out of range).
- Time: `CREATE_DATE` is stamped with the clock in `WriteFeature2FeatureClass` (QArcGISLib/QFeature.cs:622-627). That write is left out because the clock is outside the model.
- Resource handling: COM release (`QRelease`), edit sessions, `Store` and `Flush` are not modelled as state. The flush points are returned as a list instead. Both copy loops open a new insert cursor for every row (QArcGISLib/QFeatureClass.cs:1174, QArcGISLib/QFeature.cs:596), so a flush point is a `Flush()` call on the cursor of the row just inserted, not a flush of the rows before it. The per-row cursors, and what the engine does with rows on a cursor that is never flushed explicitly, are not modelled.
- Object identity: reference equality of COM objects (`!=` on boxed values in `IsFeatureInFeatureClass`) is a parameter.
- Spatial references: a spatial reference is the path of its projection file. `SetDomain`, the projection engine and the `ISpatialReferenceFactory` calls are not modelled.
- QSpatialReference.AlterSpatial: an empty path is passed on as an empty projection-file path, and what the factory does with it is not modelled.
- QCompare.CompareGeometry: a null geometry is modelled as a throw at the caller; the relation itself is never given a null shape.
- RowCopy.FillField: a failing `QField.AddField` inside the copy loops (QArcGISLib/QFeatureClass.cs:1190-1195, QArcGISLib/QTable.cs:450-454, QArcGISLib/QFeature.cs:610-614) is not modelled. Adding a missing field always succeeds.
- QFeature.WriteFeature2FeatureClass: null entries in the feature list and a workspace without an edit session are not modelled.
- QTable.CopyTable: the flush points its row loop returns are not used, since `CopyTable` stores rows one by one. `CopyTable` reads the target schema once (`fieldsTar`, QArcGISLib/QTable.cs:434) and looks an added field up in that object (line 455). The model looks it up in the table's current fields, so it assumes the captured `IFields` sees fields that `QField.AddField` adds later. If it does not, line 455 gives -1, the guarded write at line 461 drops every value of an added field, and the call still returns true; that outcome is not modelled.
- QDataset.GetDataset: the non-terminating outcome is reported as `Hangs`, not run forever.
- Opening failures: `OpenTable`, `OpenFeatureDataSet` and `OpenFeatureClass` on a name the workspace holds always succeed.
- GetTable: its catch path is not modelled; nothing in the modelled loop throws.
- Message parameters: a `ref string error` is passed in (`error0`) and handed back unchanged on every path where the source does not assign it. Where the source assigns it (a guard's message, a caught exception in `FindSameFeature` or `FindSameRow`, a failed creation), the model returns the message the source stores.
- Null strings: a null path or name is modelled as the empty string only where the source tests it with `string.IsNullOrEmpty`, which treats both alike. `DeleteFeatureClass` (QArcGISLib/QFeatureClass.cs:904) and `DeleteDataset` (QArcGISLib/QDataset.cs:398) test `== ""` instead: there a null name matches no name and the call returns false, while the model's names are never null and "" deletes every deletable entry. A null name for those two is not modelled.
- RowCopy.TargetIndexNeverThrows, RowCopy.TargetIndexInsertsEveryRow, RowCopy.ShapedTargetInsertsEveryFeature: the row buffer is created from the target's schema before the field loop, and the model lets it gain a null entry when the loop adds a field to the target. That an engine row buffer created before `AddField` carries the new field is assumed, not known; with a buffer of the old width these three would not hold. `QTable.CopyTable` makes the same assumption about the row it creates before the field loop (QArcGISLib/QTable.cs:440). It also assumes that its captured target schema sees added fields, as its own line above says.
- Non-feature-class subsets: a dataset's subsets are all feature classes in the model. A subset that is not one (a topology, a network) makes `as IFeatureClass` give null, and reading `AliasName` from it throws (QArcGISLib/QExist.cs:192-194, QArcGISLib/QFeatureClass.cs:1000-1002); that throw is not modelled. The class copy of `CreateFeatureClassFromDS2DS` lists only the feature classes, which is all of the model's subsets.
- QFeatureClass.CreateFeatureClassFromDS2DS: the null-source-dataset guard (QArcGISLib/QFeatureClass.cs:299-303) is not modelled, since its only modelled caller passes a listed dataset; the engine's own failures are one `canCreate` test and one exception message per class.
- Upper-casing: `ToUpper()` in QArcGISLib/QField.cs:47-48 follows the current culture (a Turkish culture maps "i" to "İ"). The model upper-cases the ASCII letters only, the same in every culture.
- Path helpers: `Path.GetExtension` throws ArgumentException on a path with invalid characters, and `Path.GetDirectoryName` returns null for a root path. Neither case is modelled: a path is a plain string, its directory is the text before its last separator and its extension the text from the last dot after that separator.
- QField.AddField: only the null table reaches the catch in the model. A refused schema lock or a refused `AddField` call in the engine is not modelled.
- Cursor-based operations: `ToDataTable`, `ToITable` and the cursor overload of `FindSameRow` are not part of this model.
- Task wrappers: the `Task`-based asynchronous wrappers in `GISCTrans` are not modelled, nor are `CoordTransRing` and `CoordTransPolyline`, which only iterate parts and call the modelled point loop.
- Factory calls: `CreateSpatialReference`, `GetSpatialReference`, `CreateGeographicCoordinate` and `CreateProjectedCoordinate` only call engine factories.
- Other files: `QRelease`, `Initialize`, `InitializeLicense`, the SDE and CAD helpers, `QConvert`, the `QPolygon`, `QPolyline`, `QRing` and `QPoint` geometry builders and the SHP helpers are not part of this model.
- QExist.IsFeatureDatasetInWorkspace: not modelled; it is the same first-match name walk as `IsFeatureClassInWorkspace`, over feature datasets.

## Findings

| source | as written | input that shows it | evidently intended | confidence | as-written member | corrected member |
|---|---|---|---|---|---|---|
| QArcGISLib/QFeatureClass.cs:1209-1214 | `CopyFeatureClass` flushes when `(lCount + 1) % 1000 == 0`, after the insert; at the end it flushes only when `lCount % 1000 != 0` | 1000 source rows: the only flush comes after the 999th insert, and the 1000th insert is never flushed | flush after every 1000th insert and once at the end otherwise, as `WriteFeature2FeatureClass` does (QArcGISLib/QFeature.cs:634-636). Every row opens its own insert cursor (QArcGISLib/QFeatureClass.cs:1174), so each `Flush()` reaches only the current row's cursor under either rule, and what a missing flush loses is up to the engine | not executed | `RowCopy.BeforeEveryThousandthMissesLast`, `RowCopy.BeforeEveryThousandthAtOneThousand` | `RowCopy.AfterEveryThousandthFlushesLast`, `RowCopy.AfterEveryThousandthCount` |
| QArcGISLib/QFeatureClass.cs:1197 | after adding a missing field, `CopyFeatureClass` takes the value's column from the SOURCE schema (`fieldsSrc.FindField`) and writes the target buffer there | source fields [A, B] with values ["a", DBNull] into a target holding only B: "a" lands in B's column; a lone copyable second field into an empty target is written past the buffer and throws | look the new field up in the target's schema, as `WriteFeature2FeatureClass` does (QArcGISLib/QFeature.cs:615). `CopyTable` (QArcGISLib/QTable.cs:455) also looks in the target, but in the `IFields` it captured before the loop, which may not see the added field (see QTable.CopyTable under Left out) | not executed | `RowCopy.SourceIndexMisplaces`, `RowCopy.SourceIndexThrows` | `RowCopy.TargetIndexPlaces`, `RowCopy.TargetIndexNeverThrows` |
| QArcGISLib/QTable.cs:709-721 | the list `FindSameRow` sets `isExist` only to false, so no target row is ever recorded and the result is false | one source row and one target row, equal in their single editable field: the result is false and nothing is recorded | record a target row that agrees on every compared column, as `FindSameFeature` does (QArcGISLib/QFeature.cs:133-143) | not executed | `QTable.FindSameRow`, `QTable.FindSameRowMissesEqualRows` | `QTable.FindSameRowIntended` |
| QArcGISLib/QDataset.cs:121-126 | with a non-empty name filter, `GetDataset` `continue`s past an excluded dataset without calling `Next()`, so the loop tests that dataset for ever | a workspace holding one dataset "A", listed with the filter ["B"] | fetch the next dataset and list only the admitted ones, as the loop of the `IFeatureDataset` overload does (QArcGISLib/QDataset.cs:72-84) | not executed | `QDataset.GetDataset`, `QDataset.GetDatasetHangsOnExcluded` | `QDataset.GetDatasetIntended`, `QDataset.AdmittedOnlyKeepsAdmitted` |
