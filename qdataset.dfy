/**
 * Feature datasets (QArcGISLib/QDataset.cs): listing them with a name
 * filter, the create/open/replace decision of the three CreateFeatureDataset
 * overloads, and DeleteDataset.
 *
 * The spatial reference a dataset is created with is not modelled. Whether
 * the engine manages to create a dataset of a given name is a parameter
 * (`canCreate`), and so is the message of the exception it throws when it
 * does not.
 */
module QDataset {
  import opened Wrappers
  import opened Geodatabase
  import opened DeleteScan
  import QFeatureClass

  const MSG_NO_WORKSPACE := "工作空间为空！"
  const MSG_EMPTY_NAME := "数据集名称为空！"
  const MSG_NO_SOURCE := "源数据集为空！"
  const MSG_NO_WORKSPACES := "要素工作空间为空，请检查！"

  function UndeletableMessage(name: string): string {
    "已存在数据集[" + name + "]不可删除"
  }

  // ---------------------------------------------------------------------------
  // GetDataset
  // ---------------------------------------------------------------------------

  /** What GetDataset does: returns a flag, the list and a message, or never returns. */
  datatype Listing = Listed(ok: bool, datasets: seq<FeatureDatasetInfo>, error: string) | Hangs

  /** The index of the first dataset the filter excludes, -1 when it excludes none. */
  function FirstExcluded(ds: seq<FeatureDatasetInfo>, filter: seq<string>): (i: int)
    ensures -1 <= i < |ds|
    ensures i >= 0 ==> !Admitted(ds[i].name, filter) && forall k :: 0 <= k < i ==> Admitted(ds[k].name, filter)
    ensures i == -1 <==> forall k :: 0 <= k < |ds| ==> Admitted(ds[k].name, filter)
  {
    if ds == [] then -1
    else if !Admitted(ds[0].name, filter) then 0
    else
      var j := FirstExcluded(ds[1..], filter);
      if j == -1 then -1 else j + 1
  }

  /**
   * GetDataset: appends every feature dataset of the workspace to the list.
   * With a non-empty filter, a dataset the filter excludes makes the loop
   * `continue` without fetching the next dataset, so it tests the same one
   * for ever; the model reports that as `Hangs`.
   */
  method GetDataset(ws: Workspace?, listDataset: seq<FeatureDatasetInfo>, arrDataset: seq<string>)
    returns (r: Listing)
    ensures ws == null ==> r == Listed(false, listDataset, MSG_NO_WORKSPACE)
    ensures ws != null ==> (r.Hangs? <==> FirstExcluded(ws.featureDatasets, arrDataset) != -1)
    ensures ws != null && r.Listed? ==> r == Listed(true, listDataset + ws.featureDatasets, "")
  {
    if ws == null {
      return Listed(false, listDataset, MSG_NO_WORKSPACE);
    }
    var list := listDataset;
    var ds := ws.featureDatasets;
    var i := 0;
    while i < |ds|
      invariant 0 <= i <= |ds|
      invariant list == listDataset + ds[..i]
      invariant forall k :: 0 <= k < i ==> Admitted(ds[k].name, arrDataset)
    {
      if |arrDataset| > 0 && ds[i].name !in arrDataset {
        return Hangs;
      }
      list := list + [ds[i]];
      i := i + 1;
    }
    assert ds[..i] == ds;
    return Listed(true, list, "");
  }

  /** With no filter, GetDataset lists every dataset, in enumeration order. */
  lemma GetDatasetEmptyFilter(ds: seq<FeatureDatasetInfo>)
    ensures FirstExcluded(ds, []) == -1
  {
    forall k | 0 <= k < |ds| ensures Admitted(ds[k].name, []) { }
  }

  /** One dataset, not named in a one-name filter, is enough for GetDataset never to return. */
  lemma GetDatasetHangsOnExcluded(ws: Workspace)
    requires ws.featureDatasets == [FeatureDatasetInfo("A", true, [])]
    ensures FirstExcluded(ws.featureDatasets, ["B"]) == 0
  {
    assert "A" != "B";
  }

  /** The datasets a filter admits, in their order. */
  function AdmittedOnly(ds: seq<FeatureDatasetInfo>, filter: seq<string>): seq<FeatureDatasetInfo> {
    if ds == [] then []
    else (if Admitted(ds[0].name, filter) then [ds[0]] else []) + AdmittedOnly(ds[1..], filter)
  }

  /**
   * AdmittedOnly keeps exactly the admitted datasets: each one it keeps is
   * admitted and was there, and each admitted one is kept; an empty filter
   * keeps them all.
   */
  lemma {:induction false} AdmittedOnlyKeepsAdmitted(ds: seq<FeatureDatasetInfo>, filter: seq<string>)
    ensures forall d :: d in AdmittedOnly(ds, filter) <==> d in ds && Admitted(d.name, filter)
    ensures |filter| == 0 ==> AdmittedOnly(ds, filter) == ds
  {
    if ds != [] {
      AdmittedOnlyKeepsAdmitted(ds[1..], filter);
      assert ds == [ds[0]] + ds[1..];
    }
  }

  /**
   * GetDataset as its loop evidently means to run: an excluded dataset is
   * skipped and the next one fetched, so the call always returns, with the
   * admitted datasets appended in enumeration order.
   */
  method GetDatasetIntended(ws: Workspace?, listDataset: seq<FeatureDatasetInfo>, arrDataset: seq<string>)
    returns (r: Listing)
    ensures ws == null ==> r == Listed(false, listDataset, MSG_NO_WORKSPACE)
    ensures ws != null ==> r == Listed(true, listDataset + AdmittedOnly(ws.featureDatasets, arrDataset), "")
  {
    if ws == null {
      return Listed(false, listDataset, MSG_NO_WORKSPACE);
    }
    var list := listDataset;
    var ds := ws.featureDatasets;
    var i := 0;
    while i < |ds|
      invariant 0 <= i <= |ds|
      invariant list + AdmittedOnly(ds[i..], arrDataset) == listDataset + AdmittedOnly(ds, arrDataset)
    {
      assert ds[i..][1..] == ds[i + 1..];
      if |arrDataset| == 0 || ds[i].name in arrDataset {
        list := list + [ds[i]];
      }
      i := i + 1;
    }
    return Listed(true, list, "");
  }

  /** Where the written GetDataset returns, it agrees with the intended one. */
  lemma {:induction false} GetDatasetAgreesWhenItReturns(ds: seq<FeatureDatasetInfo>, filter: seq<string>)
    requires FirstExcluded(ds, filter) == -1
    ensures AdmittedOnly(ds, filter) == ds
  {
    if ds != [] {
      assert FirstExcluded(ds[1..], filter) == -1;
      GetDatasetAgreesWhenItReturns(ds[1..], filter);
    }
  }

  // ---------------------------------------------------------------------------
  // CreateFeatureDataset(workspace, name) and (workspace, source dataset)
  // ---------------------------------------------------------------------------

  /** A newly created feature dataset: deletable and without feature classes. */
  function Fresh(name: string): FeatureDatasetInfo {
    FeatureDatasetInfo(name, true, [])
  }

  /** What a CreateFeatureDataset call hands back and leaves in the workspace. */
  datatype Outcome = Outcome(dataset: Option<FeatureDatasetInfo>, error: string,
                             datasets: seq<FeatureDatasetInfo>)

  /**
   * IFeatureWorkspace.CreateFeatureDataset: appends a fresh dataset, or
   * throws, and the message of the exception becomes the error.
   */
  function Created(ds: seq<FeatureDatasetInfo>, name: string, canCreate: string -> bool,
                   exceptionMessage: string, error0: string): Outcome
  {
    if canCreate(name) then Outcome(Some(Fresh(name)), error0, ds + [Fresh(name)])
    else Outcome(None, exceptionMessage, ds)
  }

  /** IWorkspace2.NameExists for a feature dataset finds exactly the names FirstMatch finds. */
  lemma DatasetNameFound(ds: seq<FeatureDatasetInfo>, name: string)
    ensures name in Names(ds, DatasetNameOf) <==> FirstMatch(ds, DatasetNameOf, name) >= 0
  {
    var i := FirstMatch(ds, DatasetNameOf, name);
    FirstMatchFirst(ds, DatasetNameOf, name);
    if name in Names(ds, DatasetNameOf) {
      var k :| 0 <= k < |ds| && Names(ds, DatasetNameOf)[k] == name;
      assert DatasetNameOf(ds[k]) == name;
    }
    if i >= 0 {
      assert Names(ds, DatasetNameOf)[i] == name;
    }
  }

  /**
   * The decision the first two overloads share once the name is known: an
   * absent name is created; an existing one is opened, or with `overwrite`
   * deleted and created again when it can be deleted, and refused with a
   * message when it cannot. `error0` is the caller's message, left alone
   * unless something fails.
   */
  function OpenOrCreate(ds: seq<FeatureDatasetInfo>, name: string, overwrite: bool, canCreate: string -> bool,
                        exceptionMessage: string, error0: string): (o: Outcome)
    ensures o.dataset.Some? ==> o.dataset.value.name == name
  {
    var i := FirstMatch(ds, DatasetNameOf, name);
    if i == -1 then Created(ds, name, canCreate, exceptionMessage, error0)
    else if !overwrite then Outcome(Some(ds[i]), error0, ds)
    else if ds[i].canDelete then Created(ds[..i] + ds[i + 1..], name, canCreate, exceptionMessage, error0)
    else Outcome(None, UndeletableMessage(name), ds)
  }

  /**
   * The decision rule, stated on whether the workspace has a dataset of that
   * name: absent, it is created; present and not overwritten, it is opened
   * and nothing changes; present and overwritten, it is deleted and created
   * again when it can be deleted, and otherwise the call fails with a message
   * naming it and nothing changes.
   */
  lemma OpenOrCreateDecision(ds: seq<FeatureDatasetInfo>, name: string, overwrite: bool, canCreate: string -> bool,
                             exceptionMessage: string, error0: string)
    ensures var o := OpenOrCreate(ds, name, overwrite, canCreate, exceptionMessage, error0);
      && (name !in Names(ds, DatasetNameOf) ==> o == Created(ds, name, canCreate, exceptionMessage, error0))
      && (name in Names(ds, DatasetNameOf) && !overwrite ==>
            o.dataset.Some? && o.dataset.value in ds && o.datasets == ds && o.error == error0)
      && (name in Names(ds, DatasetNameOf) && overwrite ==>
            var i := FirstMatch(ds, DatasetNameOf, name);
            && 0 <= i < |ds| && ds[i].name == name
            && (ds[i].canDelete ==>
                  o == Created(ds[..i] + ds[i + 1..], name, canCreate, exceptionMessage, error0))
            && (!ds[i].canDelete ==> o == Outcome(None, UndeletableMessage(name), ds)))
  {
    DatasetNameFound(ds, name);
    var i := FirstMatch(ds, DatasetNameOf, name);
    if i >= 0 {
      FirstMatchFirst(ds, DatasetNameOf, name);
      assert ds[i].name == name;
    }
  }

  /** Whatever the call hands back is then a dataset of the workspace. */
  lemma OpenOrCreateFinds(ds: seq<FeatureDatasetInfo>, name: string, overwrite: bool, canCreate: string -> bool,
                          exceptionMessage: string, error0: string)
    ensures var o := OpenOrCreate(ds, name, overwrite, canCreate, exceptionMessage, error0);
      o.dataset.Some? ==> o.dataset.value in o.datasets && name in Names(o.datasets, DatasetNameOf)
  {
    var o := OpenOrCreate(ds, name, overwrite, canCreate, exceptionMessage, error0);
    if o.dataset.Some? {
      var i := FirstMatch(ds, DatasetNameOf, name);
      if i >= 0 && !overwrite {
        assert Names(o.datasets, DatasetNameOf)[i] == name;
      } else {
        assert Names(o.datasets, DatasetNameOf)[|o.datasets| - 1] == name;
      }
    }
  }

  /**
   * No dataset of another name and no undeletable dataset is ever removed,
   * and the workspace gains or loses at most one dataset.
   */
  lemma OpenOrCreateSparesOthers(ds: seq<FeatureDatasetInfo>, name: string, overwrite: bool,
                                 canCreate: string -> bool, exceptionMessage: string, error0: string)
    ensures var o := OpenOrCreate(ds, name, overwrite, canCreate, exceptionMessage, error0);
      && (forall d :: d in ds && (d.name != name || !d.canDelete) ==> d in o.datasets)
      && |ds| - 1 <= |o.datasets| <= |ds| + 1
  {
    var o := OpenOrCreate(ds, name, overwrite, canCreate, exceptionMessage, error0);
    var i := FirstMatch(ds, DatasetNameOf, name);
    if i >= 0 && overwrite && ds[i].canDelete {
      forall d | d in ds && (d.name != name || !d.canDelete) ensures d in o.datasets {
        var k :| 0 <= k < |ds| && ds[k] == d;
        if k < i {
          assert o.datasets[k] == d;
        } else {
          assert o.datasets[k - 1] == d;
        }
      }
    }
  }

  /**
   * CreateFeatureDataset(workspace, name, ...): the null-workspace and
   * empty-name guards come before any lookup; then the shared decision.
   */
  method CreateFeatureDataset(ws: Workspace?, pDatasetName: string, overwrite: bool, canCreate: string -> bool,
                              exceptionMessage: string, error0: string)
    returns (r: Option<FeatureDatasetInfo>, error: string)
    modifies ws
    ensures ws == null ==> r == None && error == MSG_NO_WORKSPACE
    ensures ws != null && pDatasetName == "" ==>
      r == None && error == MSG_EMPTY_NAME && ws.featureDatasets == old(ws.featureDatasets)
    ensures ws != null && pDatasetName != "" ==>
      Outcome(r, error, ws.featureDatasets)
      == OpenOrCreate(old(ws.featureDatasets), pDatasetName, overwrite, canCreate, exceptionMessage, error0)
    ensures ws != null ==> ws.featureClasses == old(ws.featureClasses) && ws.tables == old(ws.tables)
  {
    if ws == null {
      return None, MSG_NO_WORKSPACE;
    }
    if pDatasetName == "" {
      return None, MSG_EMPTY_NAME;
    }
    var o := OpenOrCreate(ws.featureDatasets, pDatasetName, overwrite, canCreate, exceptionMessage, error0);
    ws.featureDatasets := o.datasets;
    return o.dataset, o.error;
  }

  /**
   * CreateFeatureDataset(workspace, source dataset, suffix, ...): the new
   * dataset is named after the source, with the suffix appended when it is
   * not empty; there is no empty-name guard in this overload.
   */
  method CreateFeatureDatasetLike(ws: Workspace?, datasetSrc: Option<FeatureDatasetInfo>, suffix: string,
                                  overwrite: bool, canCreate: string -> bool, exceptionMessage: string,
                                  error0: string)
    returns (r: Option<FeatureDatasetInfo>, error: string)
    modifies ws
    ensures ws == null ==> r == None && error == MSG_NO_WORKSPACE
    ensures ws != null && datasetSrc.None? ==>
      r == None && error == MSG_NO_SOURCE && ws.featureDatasets == old(ws.featureDatasets)
    ensures ws != null && datasetSrc.Some? ==>
      Outcome(r, error, ws.featureDatasets)
      == OpenOrCreate(old(ws.featureDatasets), datasetSrc.value.name + suffix, overwrite, canCreate,
                      exceptionMessage, error0)
    ensures ws != null ==> ws.featureClasses == old(ws.featureClasses) && ws.tables == old(ws.tables)
  {
    if ws == null {
      return None, MSG_NO_WORKSPACE;
    }
    if datasetSrc.None? {
      return None, MSG_NO_SOURCE;
    }
    var pDSName := datasetSrc.value.name;
    if suffix != "" {
      pDSName := pDSName + suffix;
    }
    assert pDSName == datasetSrc.value.name + suffix;
    var o := OpenOrCreate(ws.featureDatasets, pDSName, overwrite, canCreate, exceptionMessage, error0);
    ws.featureDatasets := o.datasets;
    return o.dataset, o.error;
  }

  // ---------------------------------------------------------------------------
  // CreateFeatureDataset(source workspace, target workspace, ...)
  // ---------------------------------------------------------------------------

  /**
   * The GetDataset overload that lists IFeatureDataset (no name filter):
   * appends every feature dataset of the workspace to the list, in
   * enumeration order.
   */
  method GetFeatureDatasets(ws: Workspace?, listDataset: seq<FeatureDatasetInfo>)
    returns (ok: bool, list: seq<FeatureDatasetInfo>, error: string)
    ensures ws == null ==> !ok && list == listDataset && error == MSG_NO_WORKSPACE
    ensures ws != null ==> ok && list == listDataset + ws.featureDatasets && error == ""
  {
    if ws == null {
      return false, listDataset, MSG_NO_WORKSPACE;
    }
    list := listDataset;
    var ds := ws.featureDatasets;
    var i := 0;
    while i < |ds|
      invariant 0 <= i <= |ds|
      invariant list == listDataset + ds[..i]
    {
      list := list + [ds[i]];
      i := i + 1;
    }
    assert ds[..i] == ds;
    return true, list, "";
  }

  /** The target's datasets while the loop runs, or where it returned false and with which message. */
  datatype DatasetsState =
    | Copying(datasets: seq<FeatureDatasetInfo>)
    | Stopped(datasets: seq<FeatureDatasetInfo>, error: string)

  /**
   * The inputs the workspace-to-workspace overload keeps fixed: the suffix,
   * the name filter, whether feature classes are copied too, and what the
   * engine does (whether it creates a dataset of a name, and a feature class
   * of a name, and the messages of the exceptions when it does not).
   */
  datatype Plan = Plan(suffix: string, names: seq<string>, containClasses: bool, canCreate: string -> bool,
                       exceptionMessage: string, canCreateClass: string -> bool, classExceptionMessage: string)

  /**
   * One source dataset: skipped when the filter excludes its new name;
   * created when absent, where a creation that fails with a message stops
   * the loop and one without a message does not; opened when present; then,
   * when asked for, its feature classes are copied into that dataset (none
   * when it could not be created) by CreateFeatureClassFromDS2DS, and a
   * failed copy stops the loop with the copy's message. `standalone` are the
   * target's standalone feature classes, which the loop does not change.
   */
  function CreateDatasetStep(src: FeatureDatasetInfo, datasets: seq<FeatureDatasetInfo>,
                             standalone: seq<DatasetInfo>, plan: Plan): DatasetsState
  {
    var dsName := src.name + plan.suffix;
    var created := if dsName in Names(datasets, DatasetNameOf) then Outcome(None, "", datasets)
                   else Created(datasets, dsName, plan.canCreate, plan.exceptionMessage, "");
    if !Admitted(dsName, plan.names) then Copying(datasets)
    else if created.error != "" then Stopped(datasets, created.error)
    else if !plan.containClasses then Copying(created.datasets)
    else
      var at := FirstMatch(created.datasets, DatasetNameOf, dsName);
      match QFeatureClass.CopyClasses(src.subsets, created.datasets, at, standalone, plan.suffix,
                                      plan.canCreateClass, plan.classExceptionMessage, |src.subsets|)
      case Copied(d) => Copying(d)
      case CopyFailed(d, e) => Stopped(d, e)
  }

  /**
   * How one step may change the target's datasets, from `base` (the
   * datasets, with the new dataset appended when it was created): without
   * `containClasses` not at all, with it only by classes copied from the
   * source dataset into the dataset of its new name.
   */
  ghost predicate StepGrowth(base: seq<FeatureDatasetInfo>, after: seq<FeatureDatasetInfo>, src: FeatureDatasetInfo,
                             plan: Plan)
  {
    && QFeatureClass.OnlyCopiedInto(base, after, src.name + plan.suffix, src.subsets, plan.suffix, plan.canCreateClass)
    && (!plan.containClasses ==> after == base)
  }

  /**
   * A step keeps the target's datasets or appends one fresh dataset, of an
   * admitted name the engine creates and that was absent, and then only
   * adds classes copied from the source dataset to the dataset of its new
   * name; a step that goes on has a dataset of every admitted name the
   * engine creates.
   */
  lemma CreateDatasetStepShape(src: FeatureDatasetInfo, datasets: seq<FeatureDatasetInfo>,
                               standalone: seq<DatasetInfo>, plan: Plan)
    ensures var dsName := src.name + plan.suffix;
      var s := CreateDatasetStep(src, datasets, standalone, plan);
      && (StepGrowth(datasets, s.datasets, src, plan)
          || (&& Admitted(dsName, plan.names) && plan.canCreate(dsName) && dsName !in Names(datasets, DatasetNameOf)
              && StepGrowth(datasets + [Fresh(dsName)], s.datasets, src, plan)))
      && (s.Copying? && Admitted(dsName, plan.names) && plan.canCreate(dsName) ==>
            dsName in Names(s.datasets, DatasetNameOf))
  {
    var dsName := src.name + plan.suffix;
    var s := CreateDatasetStep(src, datasets, standalone, plan);
    var created := if dsName in Names(datasets, DatasetNameOf) then Outcome(None, "", datasets)
                   else Created(datasets, dsName, plan.canCreate, plan.exceptionMessage, "");
    var base := if Admitted(dsName, plan.names) && created.error == "" then created.datasets else datasets;
    if Admitted(dsName, plan.names) && created.error == "" && plan.containClasses {
      var at := FirstMatch(created.datasets, DatasetNameOf, dsName);
      QFeatureClass.CopyClassesOnlyCopied(src.subsets, created.datasets, at, dsName, standalone, plan.suffix,
                                          plan.canCreateClass, plan.classExceptionMessage, |src.subsets|);
    }
    assert StepGrowth(base, s.datasets, src, plan);
    if s.Copying? && Admitted(dsName, plan.names) && plan.canCreate(dsName) && dsName !in Names(datasets, DatasetNameOf) {
      assert base == datasets + [Fresh(dsName)];
      assert s.datasets[|datasets|].name == dsName;
      assert Names(s.datasets, DatasetNameOf)[|datasets|] == dsName;
    }
    if dsName in Names(datasets, DatasetNameOf) {
      var m :| 0 <= m < |datasets| && Names(datasets, DatasetNameOf)[m] == dsName;
      assert Names(s.datasets, DatasetNameOf)[m] == dsName;
    }
  }

  /**
   * A step that goes on, for an admitted name and with `containClasses`,
   * leaves for each feature class of the source dataset a feature class of
   * its name plus the suffix in the target workspace.
   */
  lemma CreateDatasetStepCopiesClasses(src: FeatureDatasetInfo, datasets: seq<FeatureDatasetInfo>,
                                       standalone: seq<DatasetInfo>, plan: Plan)
    requires plan.containClasses && Admitted(src.name + plan.suffix, plan.names)
    requires CreateDatasetStep(src, datasets, standalone, plan).Copying?
    ensures var d := CreateDatasetStep(src, datasets, standalone, plan).datasets;
      forall q :: 0 <= q < |src.subsets| ==>
        src.subsets[q].name + plan.suffix in Names(standalone, NameOf)
        || src.subsets[q].name + plan.suffix in Names(AllSubsets(d), NameOf)
  {
    var dsName := src.name + plan.suffix;
    var created := if dsName in Names(datasets, DatasetNameOf) then Outcome(None, "", datasets)
                   else Created(datasets, dsName, plan.canCreate, plan.exceptionMessage, "");
    var at := FirstMatch(created.datasets, DatasetNameOf, dsName);
    forall q | 0 <= q < |src.subsets|
      ensures var r := QFeatureClass.CopyClasses(src.subsets, created.datasets, at, standalone, plan.suffix,
                                                 plan.canCreateClass, plan.classExceptionMessage, |src.subsets|);
        r.Copied? ==>
          src.subsets[q].name + plan.suffix in Names(standalone, NameOf)
          || src.subsets[q].name + plan.suffix in Names(AllSubsets(r.datasets), NameOf)
    {
      QFeatureClass.CopyClassesCovers(src.subsets, created.datasets, at, standalone, plan.suffix,
                                      plan.canCreateClass, plan.classExceptionMessage, |src.subsets|, q);
    }
  }

  /** The target's datasets after the loop has handled the first k source datasets. */
  function CreateDatasets(list: seq<FeatureDatasetInfo>, start: seq<FeatureDatasetInfo>, standalone: seq<DatasetInfo>,
                          plan: Plan, k: nat): DatasetsState
    requires k <= |list|
  {
    if k == 0 then Copying(start)
    else match CreateDatasets(list, start, standalone, plan, k - 1)
      case Stopped(d, e) => Stopped(d, e)
      case Copying(d) => CreateDatasetStep(list[k - 1], d, standalone, plan)
  }

  lemma CreateDatasetsNext(list: seq<FeatureDatasetInfo>, start: seq<FeatureDatasetInfo>, standalone: seq<DatasetInfo>,
                           plan: Plan, i: nat, d: seq<FeatureDatasetInfo>)
    requires i < |list| && CreateDatasets(list, start, standalone, plan, i) == Copying(d)
    ensures CreateDatasets(list, start, standalone, plan, i + 1) == CreateDatasetStep(list[i], d, standalone, plan)
  {
  }

  lemma {:induction false} CreateDatasetsStaysStopped(list: seq<FeatureDatasetInfo>, start: seq<FeatureDatasetInfo>,
                                                      standalone: seq<DatasetInfo>, plan: Plan, k1: nat, k2: nat)
    requires k1 <= k2 <= |list|
    requires CreateDatasets(list, start, standalone, plan, k1).Stopped?
    ensures CreateDatasets(list, start, standalone, plan, k2) == CreateDatasets(list, start, standalone, plan, k1)
  {
    if k2 > k1 {
      CreateDatasetsStaysStopped(list, start, standalone, plan, k1, k2 - 1);
    }
  }

  /**
   * A dataset the loop may have added: deletable, named by one of the first
   * k source datasets plus the suffix, admitted and creatable.
   */
  ghost predicate DatasetFromSource(d: FeatureDatasetInfo, list: seq<FeatureDatasetInfo>, plan: Plan, k: nat) {
    && d.canDelete && Admitted(d.name, plan.names) && plan.canCreate(d.name)
    && exists j :: 0 <= j < k && j < |list| && d.name == list[j].name + plan.suffix
  }

  /**
   * A feature class the loop may have added to the dataset called `dsName`:
   * copied, with `containClasses`, from a class of one of the first k
   * source datasets whose name plus the suffix is `dsName`.
   */
  ghost predicate ClassFromSource(t: DatasetInfo, dsName: string, list: seq<FeatureDatasetInfo>, plan: Plan, k: nat) {
    && plan.containClasses
    && exists j :: 0 <= j < k && j < |list| && list[j].name + plan.suffix == dsName
                   && QFeatureClass.CopiedFrom(t, list[j].subsets, plan.suffix, plan.canCreateClass)
  }

  /** How many classes of dataset m of `d` were there at the start. */
  function KeptClasses(start: seq<FeatureDatasetInfo>, m: nat): nat {
    if m < |start| then |start[m].subsets| else 0
  }

  /**
   * The loop only ever adds to the target: every dataset it started with is
   * still there, under its name and flag and with its classes in front;
   * each new one comes from an admitted source dataset; and every class
   * added anywhere is copied from a class of the source dataset of that
   * dataset's name.
   */
  ghost predicate GrownFrom(start: seq<FeatureDatasetInfo>, d: seq<FeatureDatasetInfo>, list: seq<FeatureDatasetInfo>,
                            plan: Plan, k: nat)
  {
    && |start| <= |d|
    && (forall m :: 0 <= m < |start| ==>
          d[m].name == start[m].name && d[m].canDelete == start[m].canDelete && start[m].subsets <= d[m].subsets)
    && (forall m :: |start| <= m < |d| ==> DatasetFromSource(d[m], list, plan, k))
    && forall m, q :: 0 <= m < |d| && KeptClasses(start, m) <= q < |d[m].subsets| ==>
         ClassFromSource(d[m].subsets[q], d[m].name, list, plan, k)
  }

  /** What held after k - 1 source datasets holds after k, and for the dataset the k-th may append. */
  lemma GrownFromNext(start: seq<FeatureDatasetInfo>, d: seq<FeatureDatasetInfo>, list: seq<FeatureDatasetInfo>,
                      plan: Plan, k: nat)
    requires 0 < k <= |list| && GrownFrom(start, d, list, plan, k - 1)
    ensures GrownFrom(start, d, list, plan, k)
    ensures var dsName := list[k - 1].name + plan.suffix;
      Admitted(dsName, plan.names) && plan.canCreate(dsName) ==>
        GrownFrom(start, d + [Fresh(dsName)], list, plan, k)
  {
    forall m | |start| <= m < |d|
      ensures DatasetFromSource(d[m], list, plan, k)
    {
      assert DatasetFromSource(d[m], list, plan, k - 1);
      var j :| 0 <= j < k - 1 && j < |list| && d[m].name == list[j].name + plan.suffix;
    }
    forall m, q | 0 <= m < |d| && KeptClasses(start, m) <= q < |d[m].subsets|
      ensures ClassFromSource(d[m].subsets[q], d[m].name, list, plan, k)
    {
      assert ClassFromSource(d[m].subsets[q], d[m].name, list, plan, k - 1);
      var j :| 0 <= j < k - 1 && j < |list| && list[j].name + plan.suffix == d[m].name
               && QFeatureClass.CopiedFrom(d[m].subsets[q], list[j].subsets, plan.suffix, plan.canCreateClass);
    }
    var dsName := list[k - 1].name + plan.suffix;
    if Admitted(dsName, plan.names) && plan.canCreate(dsName) {
      var e := d + [Fresh(dsName)];
      forall m | |start| <= m < |e|
        ensures DatasetFromSource(e[m], list, plan, k)
      {
        if m < |d| { assert e[m] == d[m]; }
      }
      forall m, q | 0 <= m < |e| && KeptClasses(start, m) <= q < |e[m].subsets|
        ensures ClassFromSource(e[m].subsets[q], e[m].name, list, plan, k)
      {
        assert m < |d| && e[m] == d[m];
      }
    }
  }

  /** The classes a step copies keep GrownFrom. */
  lemma GrownFromCopy(start: seq<FeatureDatasetInfo>, base: seq<FeatureDatasetInfo>, after: seq<FeatureDatasetInfo>,
                      list: seq<FeatureDatasetInfo>, plan: Plan, k: nat)
    requires 0 < k <= |list| && GrownFrom(start, base, list, plan, k)
    requires StepGrowth(base, after, list[k - 1], plan)
    ensures GrownFrom(start, after, list, plan, k)
  {
    var src := list[k - 1];
    var dsName := src.name + plan.suffix;
    forall m | |start| <= m < |after|
      ensures DatasetFromSource(after[m], list, plan, k)
    {
      assert DatasetFromSource(base[m], list, plan, k);
    }
    forall m, q | 0 <= m < |after| && KeptClasses(start, m) <= q < |after[m].subsets|
      ensures ClassFromSource(after[m].subsets[q], after[m].name, list, plan, k)
    {
      if q < |base[m].subsets| {
        assert after[m].subsets[q] == base[m].subsets[q];
        assert ClassFromSource(base[m].subsets[q], base[m].name, list, plan, k);
      } else {
        assert after != base;
        assert base[m].name == dsName;
        assert QFeatureClass.CopiedFrom(after[m].subsets[q], src.subsets, plan.suffix, plan.canCreateClass);
      }
    }
  }

  /** The loop only adds to the target, and only what GrownFrom allows. */
  lemma {:induction false} CreateDatasetsOnlyAdmitted(list: seq<FeatureDatasetInfo>, start: seq<FeatureDatasetInfo>,
                                                      standalone: seq<DatasetInfo>, plan: Plan, k: nat)
    requires k <= |list|
    ensures GrownFrom(start, CreateDatasets(list, start, standalone, plan, k).datasets, list, plan, k)
  {
    if k > 0 {
      CreateDatasetsOnlyAdmitted(list, start, standalone, plan, k - 1);
      var s0 := CreateDatasets(list, start, standalone, plan, k - 1);
      var d0 := s0.datasets;
      var d := CreateDatasets(list, start, standalone, plan, k).datasets;
      GrownFromNext(start, d0, list, plan, k);
      if s0.Copying? {
        CreateDatasetStepShape(list[k - 1], d0, standalone, plan);
        var dsName := list[k - 1].name + plan.suffix;
        if StepGrowth(d0, d, list[k - 1], plan) {
          GrownFromCopy(start, d0, d, list, plan, k);
        } else {
          GrownFromCopy(start, d0 + [Fresh(dsName)], d, list, plan, k);
        }
      }
    }
  }

  /**
   * Without `containClasses` the loop leaves the datasets it started with
   * as they were and appends only fresh, empty datasets.
   */
  lemma CreateDatasetsWithoutClasses(list: seq<FeatureDatasetInfo>, start: seq<FeatureDatasetInfo>,
                                     standalone: seq<DatasetInfo>, plan: Plan, k: nat)
    requires k <= |list| && !plan.containClasses
    ensures var d := CreateDatasets(list, start, standalone, plan, k).datasets;
      && start <= d
      && forall m :: |start| <= m < |d| ==> d[m] == Fresh(d[m].name) && DatasetFromSource(d[m], list, plan, k)
  {
    var d := CreateDatasets(list, start, standalone, plan, k).datasets;
    CreateDatasetsOnlyAdmitted(list, start, standalone, plan, k);
    forall m | 0 <= m < |d|
      ensures d[m].subsets == if m < |start| then start[m].subsets else []
    {
      var q := KeptClasses(start, m);
      assert q < |d[m].subsets| ==> ClassFromSource(d[m].subsets[q], d[m].name, list, plan, k);
    }
    forall m | 0 <= m < |start|
      ensures d[m] == start[m]
    {
      assert d[m].subsets == start[m].subsets;
    }
  }

  /** A step keeps every dataset name the target had. */
  lemma CreateDatasetStepKeepsNames(src: FeatureDatasetInfo, datasets: seq<FeatureDatasetInfo>,
                                    standalone: seq<DatasetInfo>, plan: Plan, n: string)
    requires n in Names(datasets, DatasetNameOf)
    ensures n in Names(CreateDatasetStep(src, datasets, standalone, plan).datasets, DatasetNameOf)
  {
    var d := CreateDatasetStep(src, datasets, standalone, plan).datasets;
    CreateDatasetStepShape(src, datasets, standalone, plan);
    var m :| 0 <= m < |datasets| && Names(datasets, DatasetNameOf)[m] == n;
    if !StepGrowth(datasets, d, src, plan) {
      assert (datasets + [Fresh(src.name + plan.suffix)])[m] == datasets[m];
    }
    assert Names(d, DatasetNameOf)[m] == n;
  }

  /**
   * A loop that got through leaves a dataset of every admitted new name in
   * the target, except a name whose creation failed without a message.
   */
  lemma {:induction false} CreateDatasetsCovers(list: seq<FeatureDatasetInfo>, start: seq<FeatureDatasetInfo>,
                                                standalone: seq<DatasetInfo>, plan: Plan, k: nat)
    requires k <= |list|
    requires CreateDatasets(list, start, standalone, plan, k).Copying?
    ensures var d := CreateDatasets(list, start, standalone, plan, k).datasets;
      forall j :: 0 <= j < k && Admitted(list[j].name + plan.suffix, plan.names)
                  && plan.canCreate(list[j].name + plan.suffix) ==>
        list[j].name + plan.suffix in Names(d, DatasetNameOf)
  {
    if k > 0 {
      var d0 := CreateDatasets(list, start, standalone, plan, k - 1).datasets;
      var d := CreateDatasets(list, start, standalone, plan, k).datasets;
      CreateDatasetsCovers(list, start, standalone, plan, k - 1);
      assert d == CreateDatasetStep(list[k - 1], d0, standalone, plan).datasets;
      CreateDatasetStepShape(list[k - 1], d0, standalone, plan);
      forall j | 0 <= j < k - 1 && Admitted(list[j].name + plan.suffix, plan.names)
                 && plan.canCreate(list[j].name + plan.suffix)
        ensures list[j].name + plan.suffix in Names(d, DatasetNameOf)
      {
        CreateDatasetStepKeepsNames(list[k - 1], d0, standalone, plan, list[j].name + plan.suffix);
      }
    }
  }

  /** A step keeps every feature class name held inside the target's datasets. */
  lemma CreateDatasetStepKeepsClassNames(src: FeatureDatasetInfo, datasets: seq<FeatureDatasetInfo>,
                                         standalone: seq<DatasetInfo>, plan: Plan, n: string)
    requires n in Names(AllSubsets(datasets), NameOf)
    ensures n in Names(AllSubsets(CreateDatasetStep(src, datasets, standalone, plan).datasets), NameOf)
  {
    var d := CreateDatasetStep(src, datasets, standalone, plan).datasets;
    CreateDatasetStepShape(src, datasets, standalone, plan);
    if !StepGrowth(datasets, d, src, plan) {
      var base := datasets + [Fresh(src.name + plan.suffix)];
      forall m | 0 <= m < |datasets|
        ensures datasets[m].subsets <= d[m].subsets
      {
        assert base[m] == datasets[m];
      }
    }
    QFeatureClass.SubsetsGrowKeepNames(datasets, d, n);
  }

  /**
   * A loop with `containClasses` that got through leaves, for each feature
   * class of each admitted source dataset, a feature class of its name plus
   * the suffix in the target workspace.
   */
  lemma {:induction false} CreateDatasetsCoversClasses(list: seq<FeatureDatasetInfo>, start: seq<FeatureDatasetInfo>,
                                                       standalone: seq<DatasetInfo>, plan: Plan, k: nat)
    requires k <= |list| && plan.containClasses
    requires CreateDatasets(list, start, standalone, plan, k).Copying?
    ensures var d := CreateDatasets(list, start, standalone, plan, k).datasets;
      forall j, q :: 0 <= j < k && Admitted(list[j].name + plan.suffix, plan.names) && 0 <= q < |list[j].subsets| ==>
        list[j].subsets[q].name + plan.suffix in Names(standalone, NameOf)
        || list[j].subsets[q].name + plan.suffix in Names(AllSubsets(d), NameOf)
  {
    if k > 0 {
      var d0 := CreateDatasets(list, start, standalone, plan, k - 1).datasets;
      var d := CreateDatasets(list, start, standalone, plan, k).datasets;
      CreateDatasetsCoversClasses(list, start, standalone, plan, k - 1);
      assert d == CreateDatasetStep(list[k - 1], d0, standalone, plan).datasets;
      if Admitted(list[k - 1].name + plan.suffix, plan.names) {
        CreateDatasetStepCopiesClasses(list[k - 1], d0, standalone, plan);
      }
      forall j, q | 0 <= j < k - 1 && Admitted(list[j].name + plan.suffix, plan.names) && 0 <= q < |list[j].subsets|
                    && list[j].subsets[q].name + plan.suffix !in Names(standalone, NameOf)
        ensures list[j].subsets[q].name + plan.suffix in Names(AllSubsets(d), NameOf)
      {
        CreateDatasetStepKeepsClassNames(list[k - 1], d0, standalone, plan, list[j].subsets[q].name + plan.suffix);
      }
    }
  }

  /** The body of the loop below for one source dataset, with its `continue` and its two `return false`. */
  method CreateOneDataset(wsTar: Workspace, src: FeatureDatasetInfo, plan: Plan) returns (stop: bool, error: string)
    modifies wsTar
    ensures wsTar.featureClasses == old(wsTar.featureClasses) && wsTar.tables == old(wsTar.tables)
    ensures CreateDatasetStep(src, old(wsTar.featureDatasets), wsTar.featureClasses, plan)
         == if stop then Stopped(wsTar.featureDatasets, error) else Copying(wsTar.featureDatasets)
    ensures !stop ==> error == ""
  {
    error := "";
    var dsName := src.name + plan.suffix;
    if |plan.names| > 0 && dsName !in plan.names {
      return false, error;
    }
    var bExist := wsTar.FeatureDatasetExists(dsName);
    if !bExist {
      ghost var before := wsTar.featureDatasets;
      var created;
      created, error := CreateFeatureDatasetLike(wsTar, Some(src), plan.suffix, false, plan.canCreate,
                                                 plan.exceptionMessage, error);
      OpenOrCreateDecision(before, dsName, false, plan.canCreate, plan.exceptionMessage, "");
      if error != "" {
        return true, error;
      }
    }
    if plan.containClasses {
      var at := FirstMatch(wsTar.featureDatasets, DatasetNameOf, dsName);
      var copied;
      copied, error := QFeatureClass.CreateFeatureClassFromDS2DS(src, wsTar, at, plan.suffix, plan.canCreateClass,
                                                                 plan.classExceptionMessage);
      if !copied {
        return true, error;
      }
    }
    return false, error;
  }

  /**
   * The workspace-to-workspace CreateFeatureDataset: every feature dataset
   * of the source whose name plus suffix the filter admits is created in the
   * target when absent and opened otherwise; with `containClasses` its
   * feature classes are then copied.
   */
  method CreateFeatureDatasets(wsSrc: Workspace?, wsTar: Workspace?, plan: Plan) returns (ok: bool, error: string)
    modifies wsTar
    ensures wsSrc == null || wsTar == null ==> !ok && error == MSG_NO_WORKSPACES
    ensures wsSrc != null && wsTar != null ==>
      && wsTar.featureClasses == old(wsTar.featureClasses) && wsTar.tables == old(wsTar.tables)
      && match CreateDatasets(old(wsSrc.featureDatasets), old(wsTar.featureDatasets), old(wsTar.featureClasses), plan,
                              old(|wsSrc.featureDatasets|))
         case Copying(d) => ok && error == "" && wsTar.featureDatasets == d
         case Stopped(d, e) => !ok && error == e && wsTar.featureDatasets == d
  {
    if wsSrc == null || wsTar == null {
      return false, MSG_NO_WORKSPACES;
    }
    var listed, list;
    listed, list, error := GetFeatureDatasets(wsSrc, []);
    // The listing cannot fail here: the workspace is not null.
    assert list == old(wsSrc.featureDatasets);
    if |list| == 0 {
      return true, error;
    }
    ok, error := CreateEach(wsTar, list, plan);
  }

  /** The loop of the method above over the listed source datasets. */
  method CreateEach(wsTar: Workspace, list: seq<FeatureDatasetInfo>, plan: Plan) returns (ok: bool, error: string)
    modifies wsTar
    ensures wsTar.featureClasses == old(wsTar.featureClasses) && wsTar.tables == old(wsTar.tables)
    ensures CreateDatasets(list, old(wsTar.featureDatasets), wsTar.featureClasses, plan, |list|)
         == if ok then Copying(wsTar.featureDatasets) else Stopped(wsTar.featureDatasets, error)
    ensures ok ==> error == ""
  {
    error := "";
    ghost var start := wsTar.featureDatasets;
    var i := 0;
    while i < |list|
      invariant 0 <= i <= |list| && error == ""
      invariant wsTar.featureClasses == old(wsTar.featureClasses) && wsTar.tables == old(wsTar.tables)
      invariant CreateDatasets(list, start, wsTar.featureClasses, plan, i) == Copying(wsTar.featureDatasets)
    {
      CreateDatasetsNext(list, start, wsTar.featureClasses, plan, i, wsTar.featureDatasets);
      var stop;
      stop, error := CreateOneDataset(wsTar, list[i], plan);
      if stop {
        CreateDatasetsStaysStopped(list, start, wsTar.featureClasses, plan, i + 1, |list|);
        return false, error;
      }
      i := i + 1;
    }
    return true, error;
  }

  // ---------------------------------------------------------------------------
  // DeleteDataset
  // ---------------------------------------------------------------------------

  /** The dataset scan: matched on Name, stopping at any match. */
  function ScanFeatureDatasets(ds: seq<FeatureDatasetInfo>, name: string): Scan<FeatureDatasetInfo> {
    ScanAll(ds, DatasetCanDelete, DatasetNameOf, name, true)
  }

  /**
   * DeleteDataset: an empty name deletes every deletable feature dataset; a
   * name deletes the first dataset of that name if it can, and stops there
   * either way.
   */
  method DeleteDataset(ws: Workspace?, pDataSetName: string) returns (ok: bool)
    modifies ws
    ensures ws == null ==> !ok
    ensures ws != null ==>
      && ws.featureDatasets == ScanFeatureDatasets(old(ws.featureDatasets), pDataSetName).remaining
      && ok == Reported(ScanFeatureDatasets(old(ws.featureDatasets), pDataSetName), pDataSetName)
    ensures ws != null ==> ws.featureClasses == old(ws.featureClasses) && ws.tables == old(ws.tables)
  {
    var hasDelete, hasError := false, false;
    var delAll := pDataSetName == "";
    if ws == null {
      return false;
    }
    var items := ws.featureDatasets;
    ghost var kept: seq<FeatureDatasetInfo> := [];
    var i, pos := 0, 0;
    while i < |items|
      invariant 0 <= i <= |items| && !hasDelete && pos == |kept|
      invariant ws.featureDatasets == kept + items[i..]
      invariant ScanFeatureDatasets(items, pDataSetName)
             == Resume(kept, hasError, ScanFeatureDatasets(items[i..], pDataSetName))
      invariant ws.featureClasses == old(ws.featureClasses) && ws.tables == old(ws.tables)
    {
      var rest, stopped;
      rest, stopped, hasDelete, hasError, kept, pos :=
        ScanNext(ws.featureDatasets, items, i, pos, kept, hasError, DatasetCanDelete, DatasetNameOf, pDataSetName, true);
      ws.featureDatasets := rest;
      if stopped {
        break;
      }
      i := i + 1;
    }
    if hasError {
      hasDelete := false;
    } else if delAll && !hasDelete {
      hasDelete := true;
    }
    return hasDelete;
  }

  /**
   * What DeleteDataset reports and leaves: with an empty name, true iff
   * every dataset was deletable, and exactly the undeletable ones stay; with
   * a name, only the first dataset of that name can go, the result is true
   * iff it went, and datasets of other names always stay.
   */
  lemma DeleteDatasetOutcome(ds: seq<FeatureDatasetInfo>, name: string)
    ensures name == "" ==>
      && (Reported(ScanFeatureDatasets(ds, name), name) <==> forall k :: 0 <= k < |ds| ==> ds[k].canDelete)
      && (forall d :: d in ScanFeatureDatasets(ds, name).remaining <==> d in ds && !d.canDelete)
    ensures name != "" ==>
      var i := FirstMatch(ds, DatasetNameOf, name);
      && (Reported(ScanFeatureDatasets(ds, name), name) <==> i >= 0 && ds[i].canDelete)
      && ScanFeatureDatasets(ds, name).remaining
         == (if i >= 0 && ds[i].canDelete then ds[..i] + ds[i + 1..] else ds)
      && (forall d :: d in ds && d.name != name ==> d in ScanFeatureDatasets(ds, name).remaining)
  {
    if name == "" {
      DeleteAllKeepsUndeletable(ds, DatasetCanDelete, DatasetNameOf, true);
    } else {
      DeleteNamedReports(ds, DatasetCanDelete, DatasetNameOf, name);
      DeleteNamedSparesOthers(ds, DatasetCanDelete, DatasetNameOf, name);
    }
  }
}
