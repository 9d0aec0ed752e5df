/**
 * Existence checks (QArcGISLib/QExist.cs): by name in a workspace, and of a
 * feature (or a list of features) among the rows of a feature class.
 *
 * Every exception the source catches becomes its `false` (or partial
 * list) result here; an enumerator is the corresponding sequence of the
 * workspace, walked in order.
 */
module QExist {
  import opened Wrappers
  import opened Geodatabase
  import opened QEnum
  import opened QCompare
  import opened Search

  // ---------------------------------------------------------------------------
  // IsObjectInWorkspace
  // ---------------------------------------------------------------------------

  /**
   * esriDatasetType. The named cases are the ones the switch lists; any
   * other value an enum variable can hold is `Unlisted`.
   */
  datatype DatasetType =
    | DTAny | DTContainer | DTGeo | DTFeatureDataset | DTFeatureClass | DTPlanarGraph
    | DTGeometricNetwork | DTTopology | DTText | DTTable | DTRelationshipClass
    | DTRasterDataset | DTRasterBand | DTTin | DTCadDrawing | DTRasterCatalog | DTToolbox
    | DTTool | DTNetworkDataset | DTTerrain | DTRepresentationClass | DTCadastralFabric
    | DTSchematicDataset | DTLocator | DTMap | DTLayer | DTStyle | DTMosaicDataset
    | DTLasDataset
    | Unlisted(code: int)

  /** The dataset type the switch passes on to NameExists. */
  function LookupType(t: DatasetType): DatasetType {
    if t.Unlisted? then DTFeatureClass else t
  }

  /**
   * IsObjectInWorkspace: false for a null workspace, otherwise the answer of
   * IWorkspace2.NameExists (the `nameExists` parameter) for the same type,
   * the feature-class type standing in for any type the switch does not list.
   */
  function IsObjectInWorkspace(ws: Workspace?, objectType: DatasetType, name: string,
                               nameExists: (DatasetType, string) -> bool): (r: bool)
    ensures ws == null ==> !r
    ensures ws != null && !objectType.Unlisted? ==> r == nameExists(objectType, name)
    ensures ws != null && objectType.Unlisted? ==> r == nameExists(DTFeatureClass, name)
  {
    ws != null && nameExists(LookupType(objectType), name)
  }

  /**
   * The switch passes every listed type through unchanged and sends every
   * unlisted one to the feature-class type: so two unlisted values always
   * get the same answer, and a listed type other than the feature-class one
   * never shares its lookup with an unlisted value.
   */
  lemma IsObjectInWorkspaceUnlisted(ws: Workspace?, c1: int, c2: int, t: DatasetType, name: string,
                                    nameExists: (DatasetType, string) -> bool)
    requires !t.Unlisted? && t != DTFeatureClass
    ensures IsObjectInWorkspace(ws, Unlisted(c1), name, nameExists)
         == IsObjectInWorkspace(ws, Unlisted(c2), name, nameExists)
         == IsObjectInWorkspace(ws, DTFeatureClass, name, nameExists)
    ensures LookupType(t) != LookupType(Unlisted(c1))
  {
  }

  // ---------------------------------------------------------------------------
  // Feature classes by name
  // ---------------------------------------------------------------------------

  /**
   * IsFeatureClassInWorkspace: walks the standalone feature-class names and
   * stops at the first equal one; a null workspace gives false.
   */
  method IsFeatureClassInWorkspace(ws: Workspace?, fcName: string) returns (isExist: bool)
    ensures isExist <==> ws != null && fcName in Names(ws.featureClasses, NameOf)
  {
    isExist := false;
    if ws == null {
      return;
    }
    var classes := ws.featureClasses;
    var i := 0;
    while i < |classes|
      invariant 0 <= i <= |classes|
      invariant !isExist && forall k :: 0 <= k < i ==> classes[k].name != fcName
    {
      if classes[i].name == fcName {
        isExist := true;
        break;
      }
      i := i + 1;
    }
  }

  /** Some feature class among `classes` has that alias name. */
  predicate HasAlias(classes: seq<DatasetInfo>, alias: string) {
    exists k :: 0 <= k < |classes| && classes[k].aliasName == alias
  }

  /** A feature dataset named `dsName` holding a class whose alias is `alias`. */
  predicate HoldsAlias(d: FeatureDatasetInfo, dsName: string, alias: string) {
    d.name == dsName && HasAlias(d.subsets, alias)
  }

  /**
   * IsFeatureClassInDataset: looks only inside the feature datasets whose
   * name is `dsName`, and there compares each class's alias name (not its
   * name) with `fcName`. A null workspace throws inside the try and gives
   * false.
   */
  method IsFeatureClassInDataset(ws: Workspace?, dsName: string, fcName: string) returns (isExist: bool)
    ensures isExist <==>
      (ws != null && exists k :: 0 <= k < |ws.featureDatasets| && HoldsAlias(ws.featureDatasets[k], dsName, fcName))
  {
    if ws == null {
      return false;
    }
    var fds := ws.featureDatasets;
    isExist := false;
    var i := 0;
    while i < |fds|
      invariant 0 <= i <= |fds|
      invariant !isExist
      invariant forall k :: 0 <= k < i ==> !HoldsAlias(fds[k], dsName, fcName)
    {
      if fds[i].name == dsName {
        var subs := fds[i].subsets;
        var j := 0;
        while j < |subs|
          invariant 0 <= j <= |subs|
          invariant !isExist
          invariant forall k :: 0 <= k < j ==> subs[k].aliasName != fcName
        {
          if subs[j].aliasName == fcName {
            isExist := true;
            break;
          }
          j := j + 1;
        }
        if isExist {
          assert HoldsAlias(fds[i], dsName, fcName);
          return;
        }
      }
      i := i + 1;
    }
  }

  /** A name occurs among the subsets of some dataset exactly when it occurs in AllSubsets. */
  lemma {:induction false} InAllSubsets(ds: seq<FeatureDatasetInfo>, name: string)
    ensures name in Names(AllSubsets(ds), NameOf) <==>
      exists k :: 0 <= k < |ds| && name in Names(ds[k].subsets, NameOf)
  {
    if ds != [] {
      InAllSubsets(ds[1..], name);
      NamesAppend(ds[0].subsets, AllSubsets(ds[1..]), NameOf);
      SomeSubsetsCons(ds, name);
    }
  }

  /** Some dataset holds the name: the first one, or one of the rest. */
  lemma SomeSubsetsCons(ds: seq<FeatureDatasetInfo>, name: string)
    requires ds != []
    ensures (exists k :: 0 <= k < |ds| && name in Names(ds[k].subsets, NameOf)) <==>
      name in Names(ds[0].subsets, NameOf) || exists k :: 0 <= k < |ds[1..]| && name in Names(ds[1..][k].subsets, NameOf)
  {
    if exists k :: 0 <= k < |ds[1..]| && name in Names(ds[1..][k].subsets, NameOf) {
      var k :| 0 <= k < |ds[1..]| && name in Names(ds[1..][k].subsets, NameOf);
      assert ds[1..][k] == ds[k + 1];
    }
    if exists k :: 0 <= k < |ds| && name in Names(ds[k].subsets, NameOf) {
      var k :| 0 <= k < |ds| && name in Names(ds[k].subsets, NameOf);
      if k > 0 {
        assert ds[1..][k - 1] == ds[k];
      }
    }
  }

  /**
   * IsFeatureClassInAllWorkspace: walks every dataset of the workspace; a
   * feature class is compared by name, a feature dataset by the names of its
   * subsets (the inner `break` leaves only the inner loop, so the walk goes
   * on, but the flag is never reset). The result is exactly the workspace's
   * own NameExists for feature classes; a null workspace gives false.
   */
  method IsFeatureClassInAllWorkspace(ws: Workspace?, fcName: string) returns (isExist: bool)
    ensures isExist <==> ws != null && ws.FeatureClassExists(fcName)
  {
    if ws == null {
      return false;
    }
    var classes := Names(ws.featureClasses, NameOf);
    isExist := false;
    var i := 0;
    while i < |classes|
      invariant 0 <= i <= |classes|
      invariant !isExist && forall k :: 0 <= k < i ==> classes[k] != fcName
    {
      if classes[i] == fcName {
        isExist := true;
        break;
      }
      i := i + 1;
    }
    if isExist {
      return;
    }
    var fds := ws.featureDatasets;
    var d := 0;
    while d < |fds|
      invariant 0 <= d <= |fds|
      invariant isExist <==> exists k :: 0 <= k < d && fcName in Names(fds[k].subsets, NameOf)
    {
      var subs := Names(fds[d].subsets, NameOf);
      var j := 0;
      var hit := false;
      while j < |subs|
        invariant 0 <= j <= |subs|
        invariant !hit && forall k :: 0 <= k < j ==> subs[k] != fcName
      {
        if subs[j] == fcName {
          hit := true;
          break;
        }
        j := j + 1;
      }
      isExist := isExist || hit;
      d := d + 1;
    }
    InAllSubsets(fds, fcName);
  }

  // ---------------------------------------------------------------------------
  // IsFeatureInFeatureClass
  // ---------------------------------------------------------------------------

  /** The feature the cursor yields for a stored row. */
  function RowFeature(fields: seq<Field>, row: seq<Value>): Feature {
    Feature(fields, row)
  }

  /**
   * The field test of IsFeatureInFeatureClass: every compared name is
   * looked up in the SOURCE schema and that index used on both features;
   * the values are compared as objects (`sameObject`, reference equality on
   * the boxed values), and the loop does not stop at a difference. An index
   * that does not exist in either feature throws.
   */
  function SameFields(src: Feature, tar: Feature, names: seq<string>,
                      sameObject: (Value, Value) -> bool): Option<bool>
    decreases |names|
  {
    if names == [] then Some(true)
    else
      var i := FindField(src.fields, names[0]);
      if !(0 <= i < |src.values| && i < |tar.values|) then None
      else match SameFields(src, tar, names[1..], sameObject)
        case None => None
        case Some(rest) => Some(sameObject(src.values[i], tar.values[i]) && rest)
  }

  /**
   * One row of IsFeatureInFeatureClass: fields first, then, only when they
   * all match, the shapes by CompareGeometry (a missing shape throws).
   */
  function RowMatches(rel: Relations, src: Feature, tar: Feature, names: seq<string>,
                      sameObject: (Value, Value) -> bool): Option<bool>
  {
    match SameFields(src, tar, names, sameObject)
    case None => None
    case Some(false) => Some(false)
    case Some(true) =>
      match (ShapeOf(src), ShapeOf(tar))
      case (Some(a), Some(b)) => Some(CompareGeometry(rel, a, b, Equals))
      case _ => None
  }

  /** The row-by-row outcomes of IsFeatureInFeatureClass on a feature class. */
  function RowOutcomes(rel: Relations, fields: seq<Field>, rows: seq<seq<Value>>, tar: Feature,
                       names: seq<string>, sameObject: (Value, Value) -> bool): (os: seq<Option<bool>>)
  {
    seq(|rows|, k requires 0 <= k < |rows| => RowMatches(rel, RowFeature(fields, rows[k]), tar, names, sameObject))
  }

  /**
   * IsFeatureInFeatureClass: walks the rows in cursor order and returns the
   * first one that matches the target; a throw anywhere makes the result
   * false with no feature found. With no compared fields nothing is ever
   * matched, because the whole test sits inside the `Length > 0` branch;
   * a null class or a null target gives false.
   */
  method IsFeatureInFeatureClass(rel: Relations, fc: Table?, tar: Option<Feature>, names: seq<string>,
                                 sameObject: (Value, Value) -> bool)
    returns (isExist: bool, findFeature: Option<Feature>)
    ensures fc == null || tar.None? || names == [] ==> !isExist && findFeature.None?
    ensures fc != null && tar.Some? && names != [] ==>
      var p := FirstTrue(RowOutcomes(rel, fc.fields, fc.rows, tar.value, names, sameObject));
      && (isExist <==> p.Found?)
      && (p.Found? ==> p.index < |fc.rows| && findFeature == Some(RowFeature(fc.fields, fc.rows[p.index])))
      && (!p.Found? ==> findFeature.None?)
  {
    if fc == null || tar.None? {
      return false, None;
    }
    if names == [] {
      return false, None;
    }
    ghost var os := RowOutcomes(rel, fc.fields, fc.rows, tar.value, names, sameObject);
    var i := 0;
    while i < |fc.rows|
      invariant 0 <= i <= |fc.rows|
      invariant forall k :: 0 <= k < i ==> os[k] == Some(false)
    {
      var m := RowMatches(rel, RowFeature(fc.fields, fc.rows[i]), tar.value, names, sameObject);
      assert m == os[i];
      if m.None? {
        FirstTrueSkips(os, i);
        return false, None;
      }
      if m == Some(true) {
        FirstTrueSkips(os, i);
        return true, Some(RowFeature(fc.fields, fc.rows[i]));
      }
      i := i + 1;
    }
    return false, None;
  }

  // ---------------------------------------------------------------------------
  // IsFeatureListInFeatureClass
  // ---------------------------------------------------------------------------

  /**
   * What IsFeatureListInFeatureClass has produced so far: the matched source
   * features (its result), the caller's target list (matched entries removed
   * from it in place) and the caller's `listFindFeaTar`; `threw` once a
   * comparison has thrown and the catch has ended the walk.
   */
  datatype ListMatch = ListMatch(exist: seq<Feature>, remaining: seq<Option<Feature>>,
                                 found: seq<Option<Feature>>, threw: bool)

  /** A comparison of a source feature with a (possibly null) target. */
  type Matcher = (Feature, Option<Feature>) -> Option<bool>

  /** The comparison IsFeatureListInFeatureClass applies: IsFeatureEqual by the given field names. */
  function Matching(rel: Relations, names: seq<string>): Matcher {
    (s: Feature, t: Option<Feature>) => IsFeatureEqual(rel, Some(s), t, names)
  }

  /** The comparison of one source feature with each target still in the list. */
  function Outcomes(eq: Matcher, src: Feature, targets: seq<Option<Feature>>)
    : seq<Option<bool>>
  {
    seq(|targets|, j requires 0 <= j < |targets| => eq(src, targets[j]))
  }

  /**
   * One source feature: the first target it equals is recorded on both
   * lists and removed from the target list with List.Remove; a comparison
   * that throws ends the walk.
   */
  function ListStep(eq: Matcher, st: ListMatch, src: Feature): ListMatch {
    if st.threw then st
    else match FirstTrue(Outcomes(eq, src, st.remaining))
      case Found(j) =>
        ListMatch(st.exist + [src], RemoveFirst(st.remaining, st.remaining[j]),
                  st.found + [st.remaining[j]], false)
      case NotFound => st
      case Threw => st.(threw := true)
  }

  /** The walk over the first k rows of the feature class. */
  function ListMatches(eq: Matcher, fields: seq<Field>, rows: seq<seq<Value>>,
                       start: ListMatch, k: nat): ListMatch
    requires k <= |rows|
  {
    if k == 0 then start
    else ListStep(eq, ListMatches(eq, fields, rows, start, k - 1), RowFeature(fields, rows[k - 1]))
  }

  /**
   * List.Remove of the matched target removes exactly the entry at the
   * matched position: every earlier entry compared unequal to the same
   * source, so none of them is that target.
   */
  lemma RemoveMatchedAt(eq: Matcher, src: Feature, targets: seq<Option<Feature>>, j: nat)
    requires FirstTrue(Outcomes(eq, src, targets)) == Found(j)
    ensures RemoveFirst(targets, targets[j]) == targets[..j] + targets[j + 1..]
  {
    FirstFoundIsFirstCopy(targets, Outcomes(eq, src, targets), j);
    RemoveFirstCopyAt(targets, j);
  }

  /** List.Remove of an entry with no copy before it removes that very entry. */
  lemma RemoveFirstCopyAt<T>(s: seq<T>, j: nat)
    requires j < |s| && s[j] !in s[..j]
    ensures RemoveFirst(s, s[j]) == s[..j] + s[j + 1..]
  {
    assert s == s[..j] + s[j..];
    RemoveFirstBeyond(s[..j], s[j..], s[j]);
    assert s[j..] == [s[j]] + s[j + 1..];
  }

  /**
   * When equal entries always get equal outcomes, the entry found first
   * has no copy before it.
   */
  lemma FirstFoundIsFirstCopy<T>(targets: seq<T>, os: seq<Option<bool>>, j: nat)
    requires |os| == |targets| && FirstTrue(os) == Found(j)
    requires forall k :: 0 <= k < j ==> targets[k] == targets[j] ==> os[k] == os[j]
    ensures targets[j] !in targets[..j]
  {
    forall k | 0 <= k < j ensures targets[k] != targets[j] {
      assert os[k] == Some(false) && os[j] == Some(true);
    }
  }

  /**
   * What the walk keeps true: the caller's earlier `listFindFeaTar` entries
   * stay in front; the result and `listFindFeaTar` grow together, by at most
   * one per source feature; every target is either still in the list or has
   * moved to `listFindFeaTar`, never both, never lost; and each returned
   * feature equals the target recorded beside it.
   */
  ghost predicate Conserved(eq: Matcher, targets: seq<Option<Feature>>,
                            found0: seq<Option<Feature>>, st: ListMatch, k: nat)
  {
    && |found0| <= |st.found|
    && st.found[..|found0|] == found0
    && |st.exist| + |found0| == |st.found|
    && |st.exist| <= k
    && multiset(st.remaining) + multiset(st.found[|found0|..]) == multiset(targets)
    && forall m :: 0 <= m < |st.exist| ==>
         eq(st.exist[m], st.found[|found0| + m]) == Some(true)
  }

  /** One source feature keeps the walk conserved. */
  lemma ListStepConserves(eq: Matcher, targets: seq<Option<Feature>>,
                          found0: seq<Option<Feature>>, st: ListMatch, src: Feature, k: nat)
    requires Conserved(eq, targets, found0, st, k)
    ensures Conserved(eq, targets, found0, ListStep(eq, st, src), k + 1)
  {
    if !st.threw {
      var os := Outcomes(eq, src, st.remaining);
      if FirstTrue(os).Found? {
        var j := FirstTrue(os).index;
        var x := st.remaining[j];
        var e', r', f' := st.exist + [src], RemoveFirst(st.remaining, x), st.found + [x];
        assert ListStep(eq, st, src) == ListMatch(e', r', f', false);
        assert f'[..|found0|] == found0;
        assert f'[|found0|..] == st.found[|found0|..] + [x];
        assert multiset(r') + multiset(f'[|found0|..]) == multiset(targets) by {
          RemoveFirstMultiset(st.remaining, x);
          assert x in multiset(st.remaining);
        }
        forall m | 0 <= m < |e'|
          ensures eq(e'[m], f'[|found0| + m]) == Some(true)
        {
          if m < |st.exist| {
            assert e'[m] == st.exist[m] && f'[|found0| + m] == st.found[|found0| + m];
          } else {
            assert e'[m] == src && f'[|found0| + m] == x;
            assert os[j] == Some(true);
          }
        }
      }
    }
  }

  /** The walk over any number of rows is conserved. */
  lemma {:induction false} ListMatchesConserve(eq: Matcher, fields: seq<Field>,
                                               rows: seq<seq<Value>>, targets: seq<Option<Feature>>,
                                               found0: seq<Option<Feature>>, k: nat)
    requires k <= |rows|
    ensures Conserved(eq, targets, found0,
                      ListMatches(eq, fields, rows, ListMatch([], targets, found0, false), k), k)
  {
    if k == 0 {
      assert found0[|found0|..] == [];
      assert found0[..|found0|] == found0;
    } else {
      ListMatchesConserve(eq, fields, rows, targets, found0, k - 1);
      ListStepConserves(eq, targets, found0,
                        ListMatches(eq, fields, rows, ListMatch([], targets, found0, false), k - 1),
                        RowFeature(fields, rows[k - 1]), k - 1);
    }
  }

  /** The inner loop: the first target in the list that the source equals. */
  method FirstEqualTarget(eq: Matcher, src: Feature, targets: seq<Option<Feature>>)
    returns (p: Probe)
    ensures p == FirstTrue(Outcomes(eq, src, targets))
  {
    ghost var os := Outcomes(eq, src, targets);
    var j := 0;
    while j < |targets|
      invariant 0 <= j <= |targets|
      invariant forall k :: 0 <= k < j ==> os[k] == Some(false)
    {
      var e := eq(src, targets[j]);
      assert e == os[j];
      if e.None? || e.value {
        FirstTrueSkips(os, j);
        return if e.None? then Threw else Found(j);
      }
      j := j + 1;
    }
    return NotFound;
  }

  /**
   * IsFeatureListInFeatureClass: for each row of the class in cursor order,
   * the first target in the caller's list that it equals is added to both
   * result lists and removed from the caller's list (the "backup" list is
   * the same object). A comparison that throws ends the walk, keeping what
   * was recorded so far. A null class or an empty target list returns an
   * empty result and touches nothing.
   */
  method IsFeatureListInFeatureClass(rel: Relations, fc: Table?, targets: seq<Option<Feature>>,
                                     found0: seq<Option<Feature>>, names: seq<string>)
    returns (exist: seq<Feature>, remaining: seq<Option<Feature>>, found: seq<Option<Feature>>)
    ensures fc == null || targets == [] ==> exist == [] && remaining == targets && found == found0
    ensures fc != null && targets != [] ==>
      var st := ListMatches(Matching(rel, names), fc.fields, fc.rows, ListMatch([], targets, found0, false), |fc.rows|);
      exist == st.exist && remaining == st.remaining && found == st.found
  {
    if fc == null || targets == [] {
      return [], targets, found0;
    }
    ghost var start := ListMatch([], targets, found0, false);
    var eq, fields, rows := Matching(rel, names), fc.fields, fc.rows;
    exist, remaining, found := [], targets, found0;
    var i := 0;
    while i < |rows|
      invariant 0 <= i <= |rows|
      invariant ListMatches(eq, fields, rows, start, i) == ListMatch(exist, remaining, found, false)
    {
      var src := RowFeature(fields, rows[i]);
      var p := FirstEqualTarget(eq, src, remaining);
      if p.Threw? {
        ListMatchesStayThrown(eq, fields, rows, start, i + 1, |rows|);
        return;
      }
      if p.Found? {
        exist := exist + [src];
        found := found + [remaining[p.index]];
        remaining := RemoveFirst(remaining, remaining[p.index]);
      }
      i := i + 1;
    }
  }

  /** Once a comparison has thrown, later rows change nothing. */
  lemma {:induction false} ListMatchesStayThrown(eq: Matcher, fields: seq<Field>,
                                                 rows: seq<seq<Value>>, start: ListMatch, i: nat, k: nat)
    requires i <= k <= |rows|
    requires ListMatches(eq, fields, rows, start, i).threw
    ensures ListMatches(eq, fields, rows, start, k) == ListMatches(eq, fields, rows, start, i)
    decreases k
  {
    if k > i {
      ListMatchesStayThrown(eq, fields, rows, start, i, k - 1);
    }
  }
}
