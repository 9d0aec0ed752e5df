/**
 * The decision logic of QArcGISLib/QFeatureClass.cs: deleting feature
 * classes from a workspace or from a feature dataset, dropping empty
 * classes from a list, the emptiness test, the guards and flush rule of
 * CopyFeatureClass, and the name filter of the workspace-to-workspace
 * CreateFeatureClass.
 */
module QFeatureClass {
  import opened Wrappers
  import opened Geodatabase
  import opened DeleteScan
  import opened RowCopy

  // ---------------------------------------------------------------------------
  // DeleteFeatureClass(workspace, name)
  // ---------------------------------------------------------------------------

  /** The standalone-class scan: matched on Name, stopping at any match. */
  function ScanClasses(classes: seq<DatasetInfo>, name: string): Scan<DatasetInfo> {
    ScanAll(classes, CanDelete, NameOf, name, true)
  }

  /**
   * DeleteFeatureClass over the workspace's standalone feature classes: an
   * empty name deletes every deletable class; a name deletes the first class
   * of that name if it can. The enumeration is taken as a snapshot while the
   * deleted classes leave the workspace.
   */
  method DeleteFeatureClass(ws: Workspace?, name: string) returns (ok: bool)
    modifies ws
    ensures ws == null ==> !ok
    ensures ws != null ==>
      && ws.featureClasses == ScanClasses(old(ws.featureClasses), name).remaining
      && ok == Reported(ScanClasses(old(ws.featureClasses), name), name)
    ensures ws != null ==> ws.featureDatasets == old(ws.featureDatasets) && ws.tables == old(ws.tables)
  {
    var hasDelete, hasError := false, false;
    var delAll := name == "";
    if ws == null {
      return false;
    }
    var items := ws.featureClasses;
    ghost var kept: seq<DatasetInfo> := [];
    var i, pos := 0, 0;  // pos: where the enumerator's current class sits in the workspace
    while i < |items|
      invariant 0 <= i <= |items| && !hasDelete && pos == |kept|
      invariant ws.featureClasses == kept + items[i..]
      invariant ScanClasses(items, name) == Resume(kept, hasError, ScanClasses(items[i..], name))
      invariant ws.featureDatasets == old(ws.featureDatasets) && ws.tables == old(ws.tables)
    {
      var rest, stopped;
      rest, stopped, hasDelete, hasError, kept, pos :=
        ScanNext(ws.featureClasses, items, i, pos, kept, hasError, CanDelete, NameOf, name, true);
      ws.featureClasses := rest;
      if stopped {
        break;
      }
      i := i + 1;
    }
    if hasError {
      hasDelete := false;
    } else if delAll && !hasDelete {
      hasDelete := true;
    }
    return hasDelete;
  }

  /**
   * What the standalone delete reports and leaves: with an empty name, true
   * iff every class was deletable, and exactly the undeletable ones stay;
   * with a name, only the first class of that name can go, and the result is
   * true iff it went.
   */
  lemma DeleteFeatureClassOutcome(classes: seq<DatasetInfo>, name: string)
    ensures name == "" ==>
      && (Reported(ScanClasses(classes, name), name) <==> forall k :: 0 <= k < |classes| ==> classes[k].canDelete)
      && (forall d :: d in ScanClasses(classes, name).remaining <==> d in classes && !d.canDelete)
    ensures name != "" ==>
      var i := FirstMatch(classes, NameOf, name);
      && (Reported(ScanClasses(classes, name), name) <==> i >= 0 && classes[i].canDelete)
      && ScanClasses(classes, name).remaining
         == (if i >= 0 && classes[i].canDelete then classes[..i] + classes[i + 1..] else classes)
      && (forall d :: d in classes && d.name != name ==> d in ScanClasses(classes, name).remaining)
  {
    if name == "" {
      DeleteAllKeepsUndeletable(classes, CanDelete, NameOf, true);
    } else {
      DeleteNamedReports(classes, CanDelete, NameOf, name);
      DeleteNamedSparesOthers(classes, CanDelete, NameOf, name);
    }
  }

  // ---------------------------------------------------------------------------
  // DeleteFeatureClass(workspace, dataset name, name)
  // ---------------------------------------------------------------------------

  /** The subset scan: matched on AliasName, going on past an undeletable match. */
  function ScanSubsets(subsets: seq<DatasetInfo>, name: string): Scan<DatasetInfo> {
    ScanAll(subsets, CanDelete, AliasOf, name, false)
  }

  /**
   * The dataset overload's outer loop: every feature dataset named dsName
   * has its subsets scanned, until one scan deletes; undeletable matches
   * accumulate as errors across datasets.
   */
  function ScanDatasets(ds: seq<FeatureDatasetInfo>, dsName: string, name: string): (r: Scan<FeatureDatasetInfo>)
    ensures |r.remaining| == |ds|
  {
    if ds == [] then Scan([], false, false)
    else if ds[0].name != dsName then
      var rest := ScanDatasets(ds[1..], dsName, name);
      Scan([ds[0]] + rest.remaining, rest.deleted, rest.error)
    else
      var s := ScanSubsets(ds[0].subsets, name);
      var d := ds[0].(subsets := s.remaining);
      if s.deleted then Scan([d] + ds[1..], true, s.error)
      else
        var rest := ScanDatasets(ds[1..], dsName, name);
        Scan([d] + rest.remaining, rest.deleted, s.error || rest.error)
  }

  /** The subset loop over feature dataset o, deleting from it in place. */
  method DeleteSubsets(ws: Workspace, o: nat, name: string) returns (deleted: bool, error: bool)
    requires o < |ws.featureDatasets|
    modifies ws
    ensures var s := ScanSubsets(old(ws.featureDatasets[o].subsets), name);
      && ws.featureDatasets == old(ws.featureDatasets)[o := old(ws.featureDatasets[o]).(subsets := s.remaining)]
      && deleted == s.deleted && error == s.error
    ensures ws.featureClasses == old(ws.featureClasses) && ws.tables == old(ws.tables)
  {
    deleted, error := false, false;
    var base := ws.featureDatasets;
    var dataset := base[o];
    var items := dataset.subsets;
    var subsets := items;
    ghost var kept: seq<DatasetInfo> := [];
    var i, pos := 0, 0;
    while i < |items|
      invariant 0 <= i <= |items| && !deleted && pos == |kept|
      invariant subsets == kept + items[i..]
      invariant ws.featureDatasets == base[o := dataset.(subsets := subsets)]
      invariant ScanSubsets(items, name) == Resume(kept, error, ScanSubsets(items[i..], name))
      invariant ws.featureClasses == old(ws.featureClasses) && ws.tables == old(ws.tables)
    {
      var stopped;
      subsets, stopped, deleted, error, kept, pos :=
        ScanNext(subsets, items, i, pos, kept, error, CanDelete, AliasOf, name, false);
      ws.featureDatasets := base[o := dataset.(subsets := subsets)];
      if stopped {
        break;
      }
      i := i + 1;
    }
  }

  /** One step of the outer scan, resumed at dataset i. */
  lemma ScanDatasetsStep(items: seq<FeatureDatasetInfo>, i: nat, kept: seq<FeatureDatasetInfo>, error: bool,
                         dsName: string, name: string)
    requires i < |items|
    ensures var d := items[i];
      var next := ScanDatasets(items[i + 1..], dsName, name);
      Resume(kept, error, ScanDatasets(items[i..], dsName, name)) ==
        if d.name != dsName then Resume(kept + [d], error, next)
        else
          var s := ScanSubsets(d.subsets, name);
          var d2 := d.(subsets := s.remaining);
          if s.deleted then Scan((kept + [d2]) + items[i + 1..], true, error || s.error)
          else Resume(kept + [d2], error || s.error, next)
  {
    assert items[i..][0] == items[i] && items[i..][1..] == items[i + 1..];
  }

  /**
   * DeleteFeatureClass inside the feature datasets named dsName: classes
   * are matched on their alias name; an empty name deletes every deletable
   * class of those datasets.
   */
  method DeleteFeatureClassInDataset(ws: Workspace?, dsName: string, name: string) returns (ok: bool)
    modifies ws
    ensures ws == null ==> !ok
    ensures ws != null ==>
      && ws.featureDatasets == ScanDatasets(old(ws.featureDatasets), dsName, name).remaining
      && ok == Reported(ScanDatasets(old(ws.featureDatasets), dsName, name), name)
    ensures ws != null ==> ws.featureClasses == old(ws.featureClasses) && ws.tables == old(ws.tables)
  {
    var hasDelete, hasError := false, false;
    var delAll := name == "";
    if ws == null {
      return false;
    }
    var items := ws.featureDatasets;
    ghost var kept: seq<FeatureDatasetInfo> := [];
    var i, pos := 0, 0;
    while i < |items|
      invariant 0 <= i <= |items| && !hasDelete && pos == |kept|
      invariant ws.featureDatasets == kept + items[i..]
      invariant ScanDatasets(items, dsName, name) == Resume(kept, hasError, ScanDatasets(items[i..], dsName, name))
      invariant ws.featureClasses == old(ws.featureClasses) && ws.tables == old(ws.tables)
    {
      kept, hasError, hasDelete := DeleteInNextDataset(ws, items, i, pos, kept, hasError, dsName, name);
      pos := pos + 1;
      if hasDelete {
        break;
      }
      i := i + 1;
    }
    if hasError {
      hasDelete := false;
    } else if delAll && !hasDelete {
      hasDelete := true;
    }
    return hasDelete;
  }

  /** One pass of the outer loop above, at dataset i (position pos of the workspace's list). */
  method DeleteInNextDataset(ws: Workspace, items: seq<FeatureDatasetInfo>, i: nat, pos: nat,
                             ghost kept: seq<FeatureDatasetInfo>, hasError: bool, dsName: string, name: string)
    returns (ghost kept2: seq<FeatureDatasetInfo>, hasError2: bool, deleted: bool)
    requires i < |items| && pos == |kept| && ws.featureDatasets == kept + items[i..]
    modifies ws
    ensures ws.featureClasses == old(ws.featureClasses) && ws.tables == old(ws.tables)
    ensures var r := Resume(kept, hasError, ScanDatasets(items[i..], dsName, name));
      if deleted then r == Scan(ws.featureDatasets, true, hasError2)
      else && |kept2| == pos + 1 && ws.featureDatasets == kept2 + items[i + 1..]
           && r == Resume(kept2, hasError2, ScanDatasets(items[i + 1..], dsName, name))
  {
    var d := items[i];
    ScanDatasetsStep(items, i, kept, hasError, dsName, name);
    if d.name == dsName {
      var error;
      deleted, error := DeleteSubsets(ws, pos, name);
      ReplaceCurrent(kept, items, i, ws.featureDatasets[pos]);
      hasError2 := hasError || error;
      kept2 := kept + [ws.featureDatasets[pos]];
    } else {
      KeepCurrent(kept, items, i);
      kept2, hasError2, deleted := kept + [d], hasError, false;
    }
  }

  /** A named subset scan removes only classes with that alias. */
  lemma SubsetScanKeepsOthers(subsets: seq<DatasetInfo>, name: string)
    requires name != ""
    ensures forall c :: c in subsets && c.aliasName != name ==> c in ScanSubsets(subsets, name).remaining
  {
    DeleteNamedPastUndeletable(subsets, CanDelete, AliasOf, name);
    var i := FirstDeletableMatch(subsets, CanDelete, AliasOf, name);
    if i >= 0 {
      forall c | c in subsets && c.aliasName != name
        ensures c in subsets[..i] + subsets[i + 1..]
      {
        var k :| 0 <= k < |subsets| && subsets[k] == c;
        if k < i { assert c == (subsets[..i] + subsets[i + 1..])[k]; }
        else { assert c == (subsets[..i] + subsets[i + 1..])[k - 1]; }
      }
    }
  }

  /**
   * The dataset overload keeps every feature dataset, in place and with its
   * name; only datasets named dsName can lose subsets, and a named delete
   * removes from them only classes with that alias.
   */
  lemma {:induction false} ScanDatasetsKeepsOthers(ds: seq<FeatureDatasetInfo>, dsName: string, name: string)
    requires name != ""
    ensures var r := ScanDatasets(ds, dsName, name).remaining;
      forall k :: 0 <= k < |ds| ==>
        && r[k].name == ds[k].name
        && (ds[k].name != dsName ==> r[k] == ds[k])
        && (forall c :: c in ds[k].subsets && c.aliasName != name ==> c in r[k].subsets)
  {
    if ds != [] {
      var r := ScanDatasets(ds, dsName, name).remaining;
      if ds[0].name != dsName || !ScanSubsets(ds[0].subsets, name).deleted {
        ScanDatasetsKeepsOthers(ds[1..], dsName, name);
        var rest := ScanDatasets(ds[1..], dsName, name).remaining;
        assert forall k :: 1 <= k < |ds| ==> r[k] == rest[k - 1] && ds[k] == ds[1..][k - 1];
      } else {
        assert forall k :: 1 <= k < |ds| ==> r[k] == ds[k];
      }
      if ds[0].name == dsName {
        SubsetScanKeepsOthers(ds[0].subsets, name);
      }
    }
  }

  /**
   * An undeletable class with the alias, met before any deletable one, makes
   * the dataset overload report false, whatever the scan does afterwards.
   */
  lemma {:induction false} UndeletableAliasForcesFalse(ds: seq<FeatureDatasetInfo>, dsName: string,
                                                       name: string, k: nat)
    requires name != "" && k < |ds| && ds[k].name == dsName
    requires forall m :: 0 <= m < k && ds[m].name == dsName ==>
               FirstDeletableMatch(ds[m].subsets, CanDelete, AliasOf, name) == -1
    requires var s := ds[k].subsets;
      var i := FirstDeletableMatch(s, CanDelete, AliasOf, name);
      UndeletableMatchBefore(s, CanDelete, AliasOf, name, if i == -1 then |s| else i)
    ensures ScanDatasets(ds, dsName, name).error
    ensures !Reported(ScanDatasets(ds, dsName, name), name)
  {
    if k == 0 {
      UndeletableMatchNoted(ds[0].subsets, CanDelete, AliasOf, name);
    } else {
      UndeletableAliasForcesFalse(ds[1..], dsName, name, k - 1);
      if ds[0].name == dsName {
        DeleteNamedPastUndeletable(ds[0].subsets, CanDelete, AliasOf, name);
      }
    }
  }

  // ---------------------------------------------------------------------------
  // GetNotNullFeatureClass
  // ---------------------------------------------------------------------------

  /** The classes that hold at least one feature, in their original order. */
  function NonEmpty(classes: seq<DatasetInfo>): (r: seq<DatasetInfo>)
    ensures forall d :: d in r <==> d in classes && d.rowCount > 0
    ensures |r| <= |classes|
  {
    if classes == [] then []
    else (if classes[0].rowCount > 0 then [classes[0]] else []) + NonEmpty(classes[1..])
  }

  /** Dropping (the first copy of) an empty class does not change the non-empty ones. */
  lemma {:induction false} NonEmptyWithoutEmpty(classes: seq<DatasetInfo>, x: DatasetInfo)
    requires x.rowCount == 0
    ensures NonEmpty(RemoveFirst(classes, x)) == NonEmpty(classes)
  {
    if classes != [] && classes[0] != x {
      NonEmptyWithoutEmpty(classes[1..], x);
      assert RemoveFirst(classes, x)[1..] == RemoveFirst(classes[1..], x);
    }
  }

  /** A list without empty classes is its own non-empty part. */
  lemma {:induction false} NonEmptyOfNonEmpty(classes: seq<DatasetInfo>)
    requires forall k :: 0 <= k < |classes| ==> classes[k].rowCount > 0
    ensures NonEmpty(classes) == classes
  {
    if classes != [] {
      NonEmptyOfNonEmpty(classes[1..]);
    }
  }

  /** Every class after position i has features. */
  predicate NonEmptyAfter(list: seq<DatasetInfo>, i: int) {
    forall k :: 0 <= k < |list| && i < k ==> list[k].rowCount > 0
  }

  /** One removal of the backward loop keeps the non-empty part and the checked tail. */
  lemma DropEmptyStep(list: seq<DatasetInfo>, i: nat)
    requires i < |list| && list[i].rowCount == 0
    requires NonEmptyAfter(list, i)
    ensures var after := RemoveFirst(list, list[i]);
      && NonEmpty(after) == NonEmpty(list)
      && |after| == |list| - 1
      && NonEmptyAfter(after, i - 1)
  {
    RemoveFirstAt(list, i);
    NonEmptyWithoutEmpty(list, list[i]);
    var after := RemoveFirst(list, list[i]);
    forall k | i <= k < |after|
      ensures after[k].rowCount > 0
    {
      assert after[k] == after[i..][k - i] == list[i + 1..][k - i] == list[k + 1];
    }
  }

  /**
   * GetNotNullFeatureClass: walks the list from the back and removes each
   * class whose feature count is 0 with List.Remove; the result is exactly
   * the non-empty classes in their original order.
   */
  method GetNotNullFeatureClass(listFeature: seq<DatasetInfo>) returns (list: seq<DatasetInfo>)
    ensures list == NonEmpty(listFeature)
  {
    list := listFeature;
    if |list| == 0 {
      return;
    }
    var i: int := |list| - 1;
    while i >= 0
      invariant -1 <= i < |list|
      invariant NonEmpty(list) == NonEmpty(listFeature)
      invariant NonEmptyAfter(list, i)
    {
      var fc := list[i];
      if fc.rowCount == 0 {
        DropEmptyStep(list, i);
        list := RemoveFirst(list, fc);
      } else {
        assert NonEmptyAfter(list, i - 1);
      }
      i := i - 1;
    }
    NonEmptyOfNonEmpty(list);
  }

  // ---------------------------------------------------------------------------
  // IsFeatrueClassNull
  // ---------------------------------------------------------------------------

  /**
   * IsFeatrueClassNull: 0 for a null class, -1 when the search cursor throws,
   * otherwise 1 when a first feature exists and 0 when none does.
   */
  function IsFeatrueClassNull(fc: Table?, searchThrows: bool): (r: int)
    reads fc
    ensures -1 <= r <= 1
    ensures r == -1 <==> fc != null && searchThrows
    ensures r == 1 <==> fc != null && !searchThrows && |fc.rows| > 0
  {
    if fc == null then 0
    else if searchThrows then -1
    else if |fc.rows| > 0 then 1
    else 0
  }

  // ---------------------------------------------------------------------------
  // CopyFeatureClass
  // ---------------------------------------------------------------------------

  const MSG_COPY_NULL := "复制要素类失败：要素类对象为空！"

  function EmptinessErrorMessage(name: string): string {
    "要素类[" + name + "]:判断是否为空错误！"
  }

  /**
   * CopyFeatureClass: after its guards, copies every feature of the source
   * into the target inside an edit session. The index written after adding
   * a missing field is looked up in the source's fields, and the cursor is
   * flushed when count + 1 is a multiple of 1000. A throwing write ends the
   * session without saving: the rows go back to what they were, while the
   * fields added to the schema stay. `editable` says whether the target's
   * workspace offers an edit session, `searchThrows` whether the emptiness
   * test's cursor throws, and `exceptionMessage` is the message of a
   * throwing write.
   */
  method CopyFeatureClass(src: Table?, tar: Table?, append: bool, editable: bool, searchThrows: bool,
                          exceptionMessage: string)
    returns (ok: bool, error: string, flushes: seq<nat>)
    requires src != null ==> src.Valid()
    requires tar != null ==> tar.Valid()
    modifies tar
    ensures src == null || tar == null ==> !ok && error == MSG_COPY_NULL
    ensures tar != null && (src == null || !editable || old(IsFeatrueClassNull(src, searchThrows)) != 1) ==>
      tar.fields == old(tar.fields) && tar.rows == old(tar.rows)
    ensures src != null && tar != null && !editable ==> !ok && error == ""
    ensures src != null && tar != null && editable && old(IsFeatrueClassNull(src, searchThrows)) == 0 ==>
      ok && error == ""
    ensures src != null && tar != null && editable && old(IsFeatrueClassNull(src, searchThrows)) == -1 ==>
      !ok && error == EmptinessErrorMessage(old(src.name))
    ensures src != null && tar != null && editable && old(IsFeatrueClassNull(src, searchThrows)) == 1 ==>
      var st := Copy(Features(old(src.fields), old(src.rows)), CopyState(old(tar.fields), old(tar.rows), false),
                     append, SourceIndex, false, old(|src.rows|));
      && tar.fields == st.fields
      && |old(tar.fields)| <= |st.fields|
      && (ok <==> !st.threw)
      && (ok ==> tar.rows == st.rows && error == ""
                 && flushes == FlushPoints(BeforeEveryThousandth, old(|src.rows|)))
      && (!ok ==> tar.rows == Widen(old(tar.rows), old(tar.fields), st.fields) && error == exceptionMessage)
  {
    error, flushes := "", [];
    if src == null || tar == null {
      return false, MSG_COPY_NULL, flushes;
    }
    if !editable {
      return false, error, flushes;
    }
    var isNull := IsFeatrueClassNull(src, searchThrows);
    if isNull == 0 {
      return true, error, flushes;
    } else if isNull == -1 {
      return false, EmptinessErrorMessage(src.name), flushes;
    }
    var features := Features(src.fields, src.rows);
    var fields0, rows0 := tar.fields, tar.rows;
    var threw, count;
    threw, count, flushes := CopyRows(features, tar, append, SourceIndex, false, BeforeEveryThousandth);
    CopyWidens(features, CopyState(fields0, rows0, false), append, SourceIndex, false, |features|);
    if threw {
      tar.rows := Widen(rows0, fields0, tar.fields);
      return false, exceptionMessage, flushes;
    }
    return true, error, flushes;
  }

  // ---------------------------------------------------------------------------
  // CreateFeatureClass(source workspace, target workspace, suffix, names)
  // ---------------------------------------------------------------------------

  const MSG_NO_WORKSPACES := "要素工作空间为空，请检查！"

  function CreateFailedMessage(name: string): string {
    "创建要素类[" + name + "]失败！"
  }

  /** The target's standalone classes while the loop runs, or where it stopped. */
  datatype CreateState =
    | Creating(classes: seq<DatasetInfo>)
    | CreateFailed(classes: seq<DatasetInfo>, name: string)

  /**
   * One source class: skipped when the filter excludes its new name, opened
   * when a class of that name exists in the target (standalone or inside a
   * feature dataset), created with the source's fields otherwise.
   */
  function CreateClassStep(src: DatasetInfo, classes: seq<DatasetInfo>, inDatasets: seq<DatasetInfo>,
                           suffix: string, names: seq<string>, canCreate: string -> bool): CreateState
  {
    var fcName := src.name + suffix;
    if !Admitted(fcName, names) then Creating(classes)
    else if fcName in Names(classes, NameOf) || fcName in Names(inDatasets, NameOf) then Creating(classes)
    else if canCreate(fcName) then Creating(classes + [DatasetInfo(fcName, fcName, true, 0, src.fields)])
    else CreateFailed(classes, fcName)
  }

  /** The target's standalone classes after the loop has handled the first k source classes. */
  function CreateClasses(list: seq<DatasetInfo>, start: seq<DatasetInfo>, inDatasets: seq<DatasetInfo>,
                         suffix: string, names: seq<string>, canCreate: string -> bool, k: nat): CreateState
    requires k <= |list|
  {
    if k == 0 then Creating(start)
    else match CreateClasses(list, start, inDatasets, suffix, names, canCreate, k - 1)
      case CreateFailed(c, n) => CreateFailed(c, n)
      case Creating(c) => CreateClassStep(list[k - 1], c, inDatasets, suffix, names, canCreate)
  }

  /** Once a creation has failed, later source classes are not looked at. */
  lemma {:induction false} CreateStaysFailed(list: seq<DatasetInfo>, start: seq<DatasetInfo>,
                                             inDatasets: seq<DatasetInfo>, suffix: string,
                                             names: seq<string>, canCreate: string -> bool, k1: nat, k2: nat)
    requires k1 <= k2 <= |list|
    requires CreateClasses(list, start, inDatasets, suffix, names, canCreate, k1).CreateFailed?
    ensures CreateClasses(list, start, inDatasets, suffix, names, canCreate, k2)
         == CreateClasses(list, start, inDatasets, suffix, names, canCreate, k1)
  {
    if k2 > k1 {
      CreateStaysFailed(list, start, inDatasets, suffix, names, canCreate, k1, k2 - 1);
    }
  }

  /**
   * A completed loop leaves, for every source class the filter admits, a
   * class of its new name in the target.
   */
  lemma {:induction false} CreateClassesCovers(list: seq<DatasetInfo>, start: seq<DatasetInfo>,
                                               inDatasets: seq<DatasetInfo>, suffix: string,
                                               names: seq<string>, canCreate: string -> bool, k: nat)
    requires k <= |list|
    requires CreateClasses(list, start, inDatasets, suffix, names, canCreate, k).Creating?
    ensures var c := CreateClasses(list, start, inDatasets, suffix, names, canCreate, k).classes;
      forall j :: 0 <= j < k && Admitted(list[j].name + suffix, names) ==>
        list[j].name + suffix in Names(c, NameOf) || list[j].name + suffix in Names(inDatasets, NameOf)
  {
    if k > 0 {
      CreateClassesCovers(list, start, inDatasets, suffix, names, canCreate, k - 1);
      var c0 := CreateClasses(list, start, inDatasets, suffix, names, canCreate, k - 1).classes;
      var c := CreateClasses(list, start, inDatasets, suffix, names, canCreate, k).classes;
      CreateClassStepCovers(list[k - 1], c0, inDatasets, suffix, names, canCreate);
      forall j | 0 <= j < k && Admitted(list[j].name + suffix, names)
        ensures list[j].name + suffix in Names(c, NameOf) || list[j].name + suffix in Names(inDatasets, NameOf)
      {
        if j < k - 1 && list[j].name + suffix !in Names(inDatasets, NameOf) {
          assert list[j].name + suffix in Names(c0, NameOf);
        }
      }
    }
  }

  /** One step keeps every class name the target had and leaves the admitted new name in it. */
  lemma CreateClassStepCovers(src: DatasetInfo, classes: seq<DatasetInfo>, inDatasets: seq<DatasetInfo>,
                              suffix: string, names: seq<string>, canCreate: string -> bool)
    ensures var r := CreateClassStep(src, classes, inDatasets, suffix, names, canCreate);
      r.Creating? ==>
        && (forall n :: n in Names(classes, NameOf) ==> n in Names(r.classes, NameOf))
        && (Admitted(src.name + suffix, names) ==>
              src.name + suffix in Names(r.classes, NameOf) || src.name + suffix in Names(inDatasets, NameOf))
  {
    var fcName := src.name + suffix;
    NamesAppend(classes, [DatasetInfo(fcName, fcName, true, 0, src.fields)], NameOf);
  }

  /**
   * A class the loop may have appended: empty, admitted, creatable, named by
   * one of the first k source classes plus the suffix, and carrying that
   * class's fields.
   */
  ghost predicate ClassFromSource(t: DatasetInfo, list: seq<DatasetInfo>, suffix: string, names: seq<string>,
                                  canCreate: string -> bool, k: nat)
  {
    && t.rowCount == 0 && Admitted(t.name, names) && canCreate(t.name)
    && exists j :: 0 <= j < k && j < |list| && t.name == list[j].name + suffix && t.fields == list[j].fields
  }

  /** One step either leaves the classes alone or appends a class made from its source. */
  lemma CreateClassStepOnlyAdmitted(list: seq<DatasetInfo>, k: nat, classes: seq<DatasetInfo>,
                                    inDatasets: seq<DatasetInfo>, suffix: string, names: seq<string>,
                                    canCreate: string -> bool)
    requires 0 < k <= |list|
    ensures var c := CreateClassStep(list[k - 1], classes, inDatasets, suffix, names, canCreate).classes;
      || c == classes
      || exists t :: c == classes + [t] && ClassFromSource(t, list, suffix, names, canCreate, k)
  {
    var c := CreateClassStep(list[k - 1], classes, inDatasets, suffix, names, canCreate).classes;
    var fcName := list[k - 1].name + suffix;
    if c != classes {
      var t := DatasetInfo(fcName, fcName, true, 0, list[k - 1].fields);
      assert c == classes + [t];
      assert ClassFromSource(t, list, suffix, names, canCreate, k);
    }
  }

  /**
   * The loop only appends, and every class it appends is new, empty, named
   * by an admitted source class plus the suffix, and carries its fields.
   */
  lemma {:induction false} CreateClassesOnlyAdmitted(list: seq<DatasetInfo>, start: seq<DatasetInfo>,
                                                     inDatasets: seq<DatasetInfo>, suffix: string,
                                                     names: seq<string>, canCreate: string -> bool, k: nat)
    requires k <= |list|
    ensures var c := CreateClasses(list, start, inDatasets, suffix, names, canCreate, k).classes;
      && start <= c
      && forall m :: |start| <= m < |c| ==> ClassFromSource(c[m], list, suffix, names, canCreate, k)
  {
    if k > 0 {
      CreateClassesOnlyAdmitted(list, start, inDatasets, suffix, names, canCreate, k - 1);
      var st := CreateClasses(list, start, inDatasets, suffix, names, canCreate, k - 1);
      var c0 := st.classes;
      var c := CreateClasses(list, start, inDatasets, suffix, names, canCreate, k).classes;
      if st.Creating? {
        CreateClassStepOnlyAdmitted(list, k, c0, inDatasets, suffix, names, canCreate);
      }
      forall m | |start| <= m < |c|
        ensures ClassFromSource(c[m], list, suffix, names, canCreate, k)
      {
        if m < |c0| {
          assert c[m] == c0[m];
          assert ClassFromSource(c0[m], list, suffix, names, canCreate, k - 1);
        }
      }
    }
  }

  /**
   * The workspace-to-workspace CreateFeatureClass: every standalone class of
   * the source whose name plus suffix the filter admits is opened in the
   * target or created there. `canCreate` says whether the engine creates a
   * class of a given name; a failed creation stops the loop with an error.
   */
  method CreateFeatureClasses(wsSrc: Workspace?, wsTar: Workspace?, suffix: string, feaClsNames: seq<string>,
                              canCreate: string -> bool)
    returns (ok: bool, error: string)
    modifies wsTar
    ensures wsSrc == null || wsTar == null ==> !ok && error == MSG_NO_WORKSPACES
    ensures wsSrc != null && wsTar != null ==>
      && wsTar.featureDatasets == old(wsTar.featureDatasets) && wsTar.tables == old(wsTar.tables)
      && match CreateClasses(old(wsSrc.featureClasses), old(wsTar.featureClasses),
                             AllSubsets(old(wsTar.featureDatasets)), suffix, feaClsNames, canCreate,
                             old(|wsSrc.featureClasses|))
         case Creating(c) => ok && error == "" && wsTar.featureClasses == c
         case CreateFailed(c, n) => !ok && error == CreateFailedMessage(n) && wsTar.featureClasses == c
  {
    if wsSrc == null || wsTar == null {
      return false, MSG_NO_WORKSPACES;
    }
    error := "";
    var list := wsSrc.featureClasses;
    ghost var start := wsTar.featureClasses;
    ghost var inDatasets := AllSubsets(wsTar.featureDatasets);
    if |list| == 0 {
      return true, error;
    }
    ok, error := CreateFeatureClassesFrom(list, wsTar, suffix, feaClsNames, canCreate);
  }

  /** CreateFeatureClasses's loop over a non-empty list of source classes. */
  method CreateFeatureClassesFrom(list: seq<DatasetInfo>, wsTar: Workspace, suffix: string, feaClsNames: seq<string>,
                                  canCreate: string -> bool)
    returns (ok: bool, error: string)
    modifies wsTar
    ensures wsTar.featureDatasets == old(wsTar.featureDatasets) && wsTar.tables == old(wsTar.tables)
    ensures match CreateClasses(list, old(wsTar.featureClasses), AllSubsets(old(wsTar.featureDatasets)),
                                suffix, feaClsNames, canCreate, |list|)
            case Creating(c) => ok && error == "" && wsTar.featureClasses == c
            case CreateFailed(c, n) => !ok && error == CreateFailedMessage(n) && wsTar.featureClasses == c
  {
    ghost var start := wsTar.featureClasses;
    ghost var inDatasets := AllSubsets(wsTar.featureDatasets);
    var i := 0;
    while i < |list|
      invariant 0 <= i <= |list|
      invariant wsTar.featureDatasets == old(wsTar.featureDatasets) && wsTar.tables == old(wsTar.tables)
      invariant CreateClasses(list, start, inDatasets, suffix, feaClsNames, canCreate, i)
             == Creating(wsTar.featureClasses)
    {
      var failed := CreateNextClass(list, i, wsTar, suffix, feaClsNames, canCreate, start);
      if failed {
        CreateStaysFailed(list, start, inDatasets, suffix, feaClsNames, canCreate, i + 1, |list|);
        return false, CreateFailedMessage(list[i].name + suffix);
      }
      i := i + 1;
    }
    return true, "";
  }

  /** One iteration of CreateFeatureClasses's loop, stated against CreateClasses. */
  method CreateNextClass(list: seq<DatasetInfo>, i: nat, wsTar: Workspace, suffix: string, feaClsNames: seq<string>,
                         canCreate: string -> bool, ghost start: seq<DatasetInfo>)
    returns (failed: bool)
    requires i < |list|
    requires CreateClasses(list, start, AllSubsets(wsTar.featureDatasets), suffix, feaClsNames, canCreate, i)
          == Creating(wsTar.featureClasses)
    modifies wsTar
    ensures wsTar.featureDatasets == old(wsTar.featureDatasets) && wsTar.tables == old(wsTar.tables)
    ensures CreateClasses(list, start, AllSubsets(wsTar.featureDatasets), suffix, feaClsNames, canCreate, i + 1)
         == if failed then CreateFailed(wsTar.featureClasses, list[i].name + suffix)
            else Creating(wsTar.featureClasses)
  {
    var src := list[i];
    var fcName := src.name + suffix;
    if |feaClsNames| > 0 && fcName !in feaClsNames {
      return false;
    }
    var bExist := wsTar.FeatureClassExists(fcName);
    if !bExist {
      if canCreate(fcName) {
        wsTar.featureClasses := wsTar.featureClasses + [DatasetInfo(fcName, fcName, true, 0, src.fields)];
      } else {
        return true;
      }
    }
    return false;
  }

  // ---------------------------------------------------------------------------
  // CreateFeatureClassFromDS2DS(source dataset, target workspace, target dataset)
  // ---------------------------------------------------------------------------

  /** A feature class created inside a feature dataset: empty, of the given name, with the source class's fields. */
  function NewClass(name: string, src: DatasetInfo): DatasetInfo {
    DatasetInfo(name, name, true, 0, src.fields)
  }

  /** The target's feature datasets while the class copy runs, or where it returned false and with which message. */
  datatype ClassCopy =
    | Copied(datasets: seq<FeatureDatasetInfo>)
    | CopyFailed(datasets: seq<FeatureDatasetInfo>, error: string)

  /** The datasets with one more class at the end of the subsets of dataset `at`. */
  function AddSubset(ds: seq<FeatureDatasetInfo>, at: nat, c: DatasetInfo): (r: seq<FeatureDatasetInfo>)
    requires at < |ds|
    ensures |r| == |ds|
  {
    ds[at := ds[at].(subsets := ds[at].subsets + [c])]
  }

  /**
   * One class of the source dataset: skipped when a feature class of its
   * new name exists anywhere in the target workspace; otherwise created in
   * the target dataset. Where the engine cannot create it, or there is no
   * target dataset (`at` is -1, a null dataset), the copy returns false with
   * the message of the exception.
   */
  function CopyClassStep(c: DatasetInfo, ds: seq<FeatureDatasetInfo>, at: int, standalone: seq<DatasetInfo>,
                         suffix: string, canCreate: string -> bool, exceptionMessage: string): (r: ClassCopy)
    requires at < |ds|
    ensures |r.datasets| == |ds|
  {
    var n := c.name + suffix;
    if n in Names(standalone, NameOf) || n in Names(AllSubsets(ds), NameOf) then Copied(ds)
    else if at >= 0 && canCreate(n) then Copied(AddSubset(ds, at, NewClass(n, c)))
    else CopyFailed(ds, exceptionMessage)
  }

  /** The target's datasets after the copy has handled the first k classes of the source dataset. */
  function CopyClasses(classes: seq<DatasetInfo>, start: seq<FeatureDatasetInfo>, at: int, standalone: seq<DatasetInfo>,
                       suffix: string, canCreate: string -> bool, exceptionMessage: string, k: nat): (r: ClassCopy)
    requires k <= |classes| && at < |start|
    ensures |r.datasets| == |start|
  {
    if k == 0 then Copied(start)
    else match CopyClasses(classes, start, at, standalone, suffix, canCreate, exceptionMessage, k - 1)
      case CopyFailed(d, e) => CopyFailed(d, e)
      case Copied(d) => CopyClassStep(classes[k - 1], d, at, standalone, suffix, canCreate, exceptionMessage)
  }

  /** A class the copy may have created: empty, creatable, named and shaped after one of the classes. */
  ghost predicate CopiedFrom(t: DatasetInfo, classes: seq<DatasetInfo>, suffix: string, canCreate: string -> bool) {
    && t.rowCount == 0 && canCreate(t.name)
    && exists j :: 0 <= j < |classes| && t == NewClass(classes[j].name + suffix, classes[j])
  }

  /**
   * The datasets keep their order, names and flags; each keeps its classes
   * in front; only the dataset called `dsName` gains classes, and each class
   * gained is one the copy may have created.
   */
  ghost predicate OnlyCopiedInto(before: seq<FeatureDatasetInfo>, after: seq<FeatureDatasetInfo>, dsName: string,
                                 classes: seq<DatasetInfo>, suffix: string, canCreate: string -> bool)
  {
    && |after| == |before|
    && forall m :: 0 <= m < |before| ==>
         && after[m].name == before[m].name && after[m].canDelete == before[m].canDelete
         && before[m].subsets <= after[m].subsets
         && (before[m].name != dsName ==> after[m].subsets == before[m].subsets)
         && forall q :: |before[m].subsets| <= q < |after[m].subsets| ==>
              CopiedFrom(after[m].subsets[q], classes, suffix, canCreate)
  }

  /** Class k - 1 leaves the datasets alone or adds its copy to the target dataset. */
  lemma CopyClassesAddsOne(classes: seq<DatasetInfo>, start: seq<FeatureDatasetInfo>, at: int,
                           standalone: seq<DatasetInfo>, suffix: string, canCreate: string -> bool,
                           exceptionMessage: string, k: nat)
    requires 0 < k <= |classes| && at < |start|
    ensures var st := CopyClasses(classes, start, at, standalone, suffix, canCreate, exceptionMessage, k - 1);
      var r := CopyClasses(classes, start, at, standalone, suffix, canCreate, exceptionMessage, k);
      var n := classes[k - 1].name + suffix;
      || r.datasets == st.datasets
      || (at >= 0 && canCreate(n) && r.datasets == AddSubset(st.datasets, at, NewClass(n, classes[k - 1])))
  {
  }

  /** Adding a class the copy may create to the target dataset keeps OnlyCopiedInto. */
  lemma OnlyCopiedIntoAdd(start: seq<FeatureDatasetInfo>, ds: seq<FeatureDatasetInfo>, at: nat, dsName: string,
                          classes: seq<DatasetInfo>, suffix: string, canCreate: string -> bool, t: DatasetInfo)
    requires OnlyCopiedInto(start, ds, dsName, classes, suffix, canCreate)
    requires at < |start| && start[at].name == dsName && CopiedFrom(t, classes, suffix, canCreate)
    ensures OnlyCopiedInto(start, AddSubset(ds, at, t), dsName, classes, suffix, canCreate)
  {
    var r := AddSubset(ds, at, t);
    forall m | 0 <= m < |start|
      ensures && r[m].name == start[m].name && r[m].canDelete == start[m].canDelete
              && start[m].subsets <= r[m].subsets
              && (start[m].name != dsName ==> r[m].subsets == start[m].subsets)
              && forall q :: |start[m].subsets| <= q < |r[m].subsets| ==> CopiedFrom(r[m].subsets[q], classes, suffix, canCreate)
    {
      if m == at {
        assert r[m].subsets == ds[m].subsets + [t];
      } else {
        assert r[m] == ds[m];
      }
    }
  }

  /** The class copy only adds classes created from the source dataset, and only to the target dataset. */
  lemma {:induction false} CopyClassesOnlyCopied(classes: seq<DatasetInfo>, start: seq<FeatureDatasetInfo>, at: int,
                                                 dsName: string, standalone: seq<DatasetInfo>, suffix: string,
                                                 canCreate: string -> bool, exceptionMessage: string, k: nat)
    requires k <= |classes| && at < |start| && (at >= 0 ==> start[at].name == dsName)
    decreases k
    ensures OnlyCopiedInto(start, CopyClasses(classes, start, at, standalone, suffix, canCreate, exceptionMessage, k).datasets,
                           dsName, classes, suffix, canCreate)
  {
    if k > 0 {
      CopyClassesOnlyCopied(classes, start, at, dsName, standalone, suffix, canCreate, exceptionMessage, k - 1);
      CopyClassesAddsOne(classes, start, at, standalone, suffix, canCreate, exceptionMessage, k);
      var st := CopyClasses(classes, start, at, standalone, suffix, canCreate, exceptionMessage, k - 1);
      var r := CopyClasses(classes, start, at, standalone, suffix, canCreate, exceptionMessage, k);
      if r.datasets != st.datasets {
        var t := NewClass(classes[k - 1].name + suffix, classes[k - 1]);
        assert at >= 0 && canCreate(t.name) && r.datasets == AddSubset(st.datasets, at, t);
        assert CopiedFrom(t, classes, suffix, canCreate);
        OnlyCopiedIntoAdd(start, st.datasets, at, dsName, classes, suffix, canCreate, t);
      }
    }
  }

  /** A class name held anywhere in the datasets is still held once classes and datasets are only added. */
  lemma {:induction false} SubsetsGrowKeepNames(before: seq<FeatureDatasetInfo>, after: seq<FeatureDatasetInfo>, n: string)
    requires |before| <= |after| && forall m :: 0 <= m < |before| ==> before[m].subsets <= after[m].subsets
    requires n in Names(AllSubsets(before), NameOf)
    ensures n in Names(AllSubsets(after), NameOf)
  {
    if n in Names(before[0].subsets, NameOf) {
      var q :| 0 <= q < |before[0].subsets| && before[0].subsets[q].name == n;
      assert after[0].subsets[q] in AllSubsets(after);
      var i :| 0 <= i < |AllSubsets(after)| && AllSubsets(after)[i] == after[0].subsets[q];
      assert Names(AllSubsets(after), NameOf)[i] == n;
    } else {
      NamesAppend(before[0].subsets, AllSubsets(before[1..]), NameOf);
      assert n in Names(AllSubsets(before[1..]), NameOf);
      SubsetsGrowKeepNames(before[1..], after[1..], n);
      NamesAppend(after[0].subsets, AllSubsets(after[1..]), NameOf);
    }
  }

  /** A class just added to a dataset is found by name among the classes inside datasets. */
  lemma AddedSubsetNamed(ds: seq<FeatureDatasetInfo>, at: nat, c: DatasetInfo)
    requires at < |ds|
    ensures c.name in Names(AllSubsets(AddSubset(ds, at, c)), NameOf)
  {
    var r := AddSubset(ds, at, c);
    assert r[at].subsets[|r[at].subsets| - 1] == c;
    assert r[at] in r && c in r[at].subsets;
    var all := AllSubsets(r);
    assert c in all;
    var i :| 0 <= i < |all| && all[i] == c;
    assert Names(all, NameOf)[i] == c.name;
  }

  /** Class k - 1 of a copy that got through to k has left a feature class of its new name in the workspace. */
  lemma CopyClassesLastCovered(classes: seq<DatasetInfo>, start: seq<FeatureDatasetInfo>, at: int,
                               standalone: seq<DatasetInfo>, suffix: string, canCreate: string -> bool,
                               exceptionMessage: string, k: nat)
    requires 0 < k <= |classes| && at < |start|
    ensures var r := CopyClasses(classes, start, at, standalone, suffix, canCreate, exceptionMessage, k);
      r.Copied? ==>
        classes[k - 1].name + suffix in Names(standalone, NameOf)
        || classes[k - 1].name + suffix in Names(AllSubsets(r.datasets), NameOf)
  {
    var st := CopyClasses(classes, start, at, standalone, suffix, canCreate, exceptionMessage, k - 1);
    var c := classes[k - 1];
    var n := c.name + suffix;
    if st.Copied? && !(n in Names(standalone, NameOf) || n in Names(AllSubsets(st.datasets), NameOf))
       && at >= 0 && canCreate(n) {
      AddedSubsetNamed(st.datasets, at, NewClass(n, c));
    }
  }

  /** Handling class k - 1 keeps every class name held inside the datasets. */
  lemma CopyClassesKeepsNames(classes: seq<DatasetInfo>, start: seq<FeatureDatasetInfo>, at: int,
                              standalone: seq<DatasetInfo>, suffix: string, canCreate: string -> bool,
                              exceptionMessage: string, k: nat, n: string)
    requires 0 < k <= |classes| && at < |start|
    requires n in Names(AllSubsets(CopyClasses(classes, start, at, standalone, suffix, canCreate,
                                                      exceptionMessage, k - 1).datasets), NameOf)
    ensures n in Names(AllSubsets(CopyClasses(classes, start, at, standalone, suffix, canCreate,
                                                     exceptionMessage, k).datasets), NameOf)
  {
    var st := CopyClasses(classes, start, at, standalone, suffix, canCreate, exceptionMessage, k - 1);
    var c := classes[k - 1];
    var m := c.name + suffix;
    if st.Copied? && !(m in Names(standalone, NameOf) || m in Names(AllSubsets(st.datasets), NameOf))
       && at >= 0 && canCreate(m) {
      var r := AddSubset(st.datasets, at, NewClass(m, c));
      assert forall i :: 0 <= i < |st.datasets| ==> st.datasets[i].subsets <= r[i].subsets;
      SubsetsGrowKeepNames(st.datasets, r, n);
    }
  }

  /**
   * A copy that got through leaves, for class j of the source dataset, a
   * feature class of its new name in the target workspace: standalone, in
   * a dataset already, or created in the target dataset.
   */
  lemma {:induction false} CopyClassesCovers(classes: seq<DatasetInfo>, start: seq<FeatureDatasetInfo>, at: int,
                                             standalone: seq<DatasetInfo>, suffix: string, canCreate: string -> bool,
                                             exceptionMessage: string, k: nat, j: nat)
    requires j < k <= |classes| && at < |start|
    decreases k
    ensures var r := CopyClasses(classes, start, at, standalone, suffix, canCreate, exceptionMessage, k);
      r.Copied? ==>
        classes[j].name + suffix in Names(standalone, NameOf)
        || classes[j].name + suffix in Names(AllSubsets(r.datasets), NameOf)
  {
    if j == k - 1 {
      CopyClassesLastCovered(classes, start, at, standalone, suffix, canCreate, exceptionMessage, k);
    } else {
      CopyClassesCovers(classes, start, at, standalone, suffix, canCreate, exceptionMessage, k - 1, j);
      CopyClassesCarriesCover(classes, start, at, standalone, suffix, canCreate, exceptionMessage, k, classes[j].name + suffix);
    }
  }

  /** A name the copy has covered up to class k - 1 stays covered after class k - 1. */
  lemma CopyClassesCarriesCover(classes: seq<DatasetInfo>, start: seq<FeatureDatasetInfo>, at: int,
                                standalone: seq<DatasetInfo>, suffix: string, canCreate: string -> bool,
                                exceptionMessage: string, k: nat, n: string)
    requires 0 < k <= |classes| && at < |start|
    requires var st := CopyClasses(classes, start, at, standalone, suffix, canCreate, exceptionMessage, k - 1);
      st.Copied? ==> n in Names(standalone, NameOf) || n in Names(AllSubsets(st.datasets), NameOf)
    ensures var r := CopyClasses(classes, start, at, standalone, suffix, canCreate, exceptionMessage, k);
      r.Copied? ==> n in Names(standalone, NameOf) || n in Names(AllSubsets(r.datasets), NameOf)
  {
    var r := CopyClasses(classes, start, at, standalone, suffix, canCreate, exceptionMessage, k);
    if r.Copied? && n !in Names(standalone, NameOf) {
      CopyClassesStaysFailedOnce(classes, start, at, standalone, suffix, canCreate, exceptionMessage, k);
      CopyClassesKeepsNames(classes, start, at, standalone, suffix, canCreate, exceptionMessage, k, n);
    }
  }

  /** A copy that got through to k got through to k - 1. */
  lemma CopyClassesStaysFailedOnce(classes: seq<DatasetInfo>, start: seq<FeatureDatasetInfo>, at: int,
                                   standalone: seq<DatasetInfo>, suffix: string, canCreate: string -> bool,
                                   exceptionMessage: string, k: nat)
    requires 0 < k <= |classes| && at < |start|
    ensures CopyClasses(classes, start, at, standalone, suffix, canCreate, exceptionMessage, k).Copied? ==>
      CopyClasses(classes, start, at, standalone, suffix, canCreate, exceptionMessage, k - 1).Copied?
  {
  }

  /**
   * CreateFeatureClassFromDS2DS: each feature class of the source dataset
   * whose name plus the suffix is not a feature class of the target
   * workspace is created, with the source's fields, inside the target
   * dataset (the one at `at`, or none when `at` is -1); the first failed
   * creation returns false with the exception's message. The message is
   * cleared first, as the listing of the source's classes does.
   */
  method CreateFeatureClassFromDS2DS(src: FeatureDatasetInfo, wsTar: Workspace, at: int, suffix: string,
                                     canCreate: string -> bool, exceptionMessage: string)
    returns (ok: bool, error: string)
    requires at < |wsTar.featureDatasets|
    modifies wsTar
    ensures wsTar.featureClasses == old(wsTar.featureClasses) && wsTar.tables == old(wsTar.tables)
    ensures CopyClasses(src.subsets, old(wsTar.featureDatasets), at, old(wsTar.featureClasses), suffix, canCreate,
                        exceptionMessage, |src.subsets|)
         == if ok then Copied(wsTar.featureDatasets) else CopyFailed(wsTar.featureDatasets, error)
    ensures ok ==> error == ""
  {
    error := "";
    var classes := src.subsets;
    ghost var start := wsTar.featureDatasets;
    var i := 0;
    while i < |classes|
      invariant 0 <= i <= |classes| && |wsTar.featureDatasets| == |start|
      invariant wsTar.featureClasses == old(wsTar.featureClasses) && wsTar.tables == old(wsTar.tables)
      invariant CopyClasses(classes, start, at, wsTar.featureClasses, suffix, canCreate, exceptionMessage, i)
             == Copied(wsTar.featureDatasets)
    {
      var failed := CopyNextClass(classes, i, wsTar, at, suffix, canCreate, exceptionMessage, start);
      if failed {
        CopyClassesStaysFailed(classes, start, at, wsTar.featureClasses, suffix, canCreate, exceptionMessage,
                               i + 1, |classes|);
        return false, exceptionMessage;
      }
      i := i + 1;
    }
    return true, error;
  }

  /** One iteration of the copy loop, stated against CopyClasses. */
  method CopyNextClass(classes: seq<DatasetInfo>, i: nat, wsTar: Workspace, at: int, suffix: string,
                       canCreate: string -> bool, exceptionMessage: string, ghost start: seq<FeatureDatasetInfo>)
    returns (failed: bool)
    requires i < |classes| && at < |start| && |wsTar.featureDatasets| == |start|
    requires CopyClasses(classes, start, at, wsTar.featureClasses, suffix, canCreate, exceptionMessage, i)
          == Copied(wsTar.featureDatasets)
    modifies wsTar
    ensures wsTar.featureClasses == old(wsTar.featureClasses) && wsTar.tables == old(wsTar.tables)
    ensures |wsTar.featureDatasets| == |start|
    ensures CopyClasses(classes, start, at, wsTar.featureClasses, suffix, canCreate, exceptionMessage, i + 1)
         == if failed then CopyFailed(wsTar.featureDatasets, exceptionMessage) else Copied(wsTar.featureDatasets)
  {
    var c := classes[i];
    var n := c.name + suffix;
    if wsTar.FeatureClassExists(n) {
      return false;
    }
    if at >= 0 && canCreate(n) {
      wsTar.featureDatasets := AddSubset(wsTar.featureDatasets, at, NewClass(n, c));
      return false;
    }
    return true;
  }

  /** The copy returns at its first failure. */
  lemma {:induction false} CopyClassesStaysFailed(classes: seq<DatasetInfo>, start: seq<FeatureDatasetInfo>, at: int,
                                                  standalone: seq<DatasetInfo>, suffix: string, canCreate: string -> bool,
                                                  exceptionMessage: string, k1: nat, k2: nat)
    requires k1 <= k2 <= |classes| && at < |start|
    requires CopyClasses(classes, start, at, standalone, suffix, canCreate, exceptionMessage, k1).CopyFailed?
    ensures CopyClasses(classes, start, at, standalone, suffix, canCreate, exceptionMessage, k2)
         == CopyClasses(classes, start, at, standalone, suffix, canCreate, exceptionMessage, k1)
  {
    if k2 > k1 {
      CopyClassesStaysFailed(classes, start, at, standalone, suffix, canCreate, exceptionMessage, k1, k2 - 1);
    }
  }
}
