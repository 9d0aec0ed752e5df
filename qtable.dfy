/**
 * The decision logic of QArcGISLib/QTable.cs: looking a table up by name,
 * dropping empty tables from a list, the two emptiness tests, creating a
 * table from another's attribute fields (singly and workspace to
 * workspace), copying rows between tables, and the list FindSameRow.
 */
module QTable {
  import opened Wrappers
  import opened Geodatabase
  import opened QCompare
  import opened Search
  import opened RowCopy
  import opened QFeatureClass

  // ---------------------------------------------------------------------------
  // GetTable(workspace, name)
  // ---------------------------------------------------------------------------

  /** ds[k] is the first record called name. */
  predicate FirstNamedAt(ds: seq<DatasetInfo>, name: string, k: nat) {
    k < |ds| && ds[k].name == name && forall m :: 0 <= m < k ==> ds[m].name != name
  }

  /**
   * GetTable: the first table of the workspace with that name, walking the
   * table enumeration; nothing for a null workspace or an empty name.
   */
  method GetTable(ws: Workspace?, name: string) returns (r: Option<DatasetInfo>)
    ensures ws == null || name == "" ==> r.None?
    ensures ws != null && name != "" ==> (r.Some? <==> name in Names(ws.tables, NameOf))
    ensures r.Some? ==> ws != null && exists k: nat :: FirstNamedAt(ws.tables, name, k) && ws.tables[k] == r.value
  {
    if ws == null || name == "" {
      return None;
    }
    var tables := ws.tables;
    var i := 0;
    while i < |tables|
      invariant 0 <= i <= |tables|
      invariant forall m :: 0 <= m < i ==> tables[m].name != name
    {
      if tables[i].name == name {
        assert FirstNamedAt(tables, name, i);
        return Some(tables[i]);
      }
      i := i + 1;
    }
    return None;
  }

  // ---------------------------------------------------------------------------
  // GetNotNullTable and the emptiness tests
  // ---------------------------------------------------------------------------

  /**
   * GetNotNullTable: the same backward removal loop as
   * GetNotNullFeatureClass, so it keeps exactly the tables with rows, in
   * their order.
   */
  method GetNotNullTable(listTable: seq<DatasetInfo>) returns (list: seq<DatasetInfo>)
    ensures list == NonEmpty(listTable)
  {
    list := GetNotNullFeatureClass(listTable);
  }

  /** IsNullTable(table): a null table or one without rows. */
  predicate IsNullTable(t: Table?)
    reads t
  {
    t == null || |t.rows| == 0
  }

  /**
   * IsNullTable(workspace, name): true for a null workspace, an empty name,
   * a name with no table, or a first table of that name with no rows.
   */
  method IsNullTableIn(ws: Workspace?, name: string) returns (r: bool)
    ensures !r <==> ws != null && name != "" &&
                    exists k: nat :: FirstNamedAt(ws.tables, name, k) && ws.tables[k].rowCount > 0
  {
    if ws == null || name == "" {
      return true;
    }
    var t := GetTable(ws, name);
    if t.None? {
      return true;
    }
    r := t.value.rowCount == 0;
    FirstNamedIsUnique(ws.tables, name);
  }

  /** Only one position holds the first record of a name. */
  lemma FirstNamedIsUnique(ds: seq<DatasetInfo>, name: string)
    ensures forall j: nat, k: nat :: FirstNamedAt(ds, name, j) && FirstNamedAt(ds, name, k) ==> j == k
  {
  }

  /** A table the workspace test calls non-empty survives GetNotNullTable. */
  lemma NonNullTableSurvives(tables: seq<DatasetInfo>, name: string, k: nat)
    requires FirstNamedAt(tables, name, k) && tables[k].rowCount > 0
    ensures tables[k] in NonEmpty(tables)
  {
    assert tables[k] in tables;
  }

  // ---------------------------------------------------------------------------
  // CreateTable(workspace, table, name)
  // ---------------------------------------------------------------------------

  /** The fields of a schema that are not geometry fields, in order. */
  function AttributeFields(fields: seq<Field>): (r: seq<Field>)
    ensures |r| <= |fields|
    ensures forall f :: f in r <==> f in fields && f.fieldType != GeometryField
  {
    if fields == [] then []
    else
      var last := fields[|fields| - 1];
      AttributeFields(fields[..|fields| - 1]) + (if last.fieldType != GeometryField then [last] else [])
  }

  /** The field filter keeps the order: it distributes over concatenation. */
  lemma {:induction false} AttributeFieldsAppend(a: seq<Field>, b: seq<Field>)
    ensures AttributeFields(a + b) == AttributeFields(a) + AttributeFields(b)
    decreases |b|
  {
    if b == [] {
      assert a + b == a;
    } else {
      var b' := b[..|b| - 1];
      assert (a + b)[..|a + b| - 1] == a + b';
      AttributeFieldsAppend(a, b');
    }
  }

  /** A schema without geometry fields is copied whole. */
  lemma {:induction false} AttributeFieldsOfAttributes(fields: seq<Field>)
    requires forall k :: 0 <= k < |fields| ==> fields[k].fieldType != GeometryField
    ensures AttributeFields(fields) == fields
  {
    if fields != [] {
      AttributeFieldsOfAttributes(fields[..|fields| - 1]);
      assert fields == fields[..|fields| - 1] + [fields[|fields| - 1]];
    }
  }

  /** The field loop of CreateTable: each non-geometry field is added in turn. */
  method CopyAttributeFields(fields: seq<Field>) returns (newFields: seq<Field>)
    ensures newFields == AttributeFields(fields)
  {
    newFields := [];
    for i := 0 to |fields|
      invariant newFields == AttributeFields(fields[..i])
    {
      assert fields[..i + 1][..i] == fields[..i];
      if fields[i].fieldType != GeometryField {
        newFields := newFields + [fields[i]];
      }
    }
    assert fields[..|fields|] == fields;
  }

  /**
   * CreateTable(workspace, table, name): a new, empty table holding the
   * source's non-geometry fields, named by the argument or, when that is
   * empty, by the source. `canCreate` says whether the engine creates a
   * table of a given name; a refusal is swallowed and yields nothing.
   */
  method CreateTable(ws: Workspace?, table: Option<DatasetInfo>, tableName: string, canCreate: string -> bool)
    returns (r: Option<DatasetInfo>)
    modifies ws
    ensures ws == null || table.None? ==> r.None?
    ensures ws != null ==> ws.featureClasses == old(ws.featureClasses) && ws.featureDatasets == old(ws.featureDatasets)
    ensures ws != null && table.Some? ==>
      var name := if tableName == "" then table.value.name else tableName;
      if canCreate(name) then
        && r == Some(DatasetInfo(name, name, true, 0, AttributeFields(table.value.fields)))
        && ws.tables == old(ws.tables) + [r.value]
      else r.None? && ws.tables == old(ws.tables)
  {
    if ws == null || table.None? {
      return None;
    }
    var name := tableName;
    if name == "" {
      name := table.value.name;
    }
    var fields := CopyAttributeFields(table.value.fields);
    if !canCreate(name) {
      return None;
    }
    var created := DatasetInfo(name, name, true, 0, fields);
    ws.tables := ws.tables + [created];
    return Some(created);
  }

  // ---------------------------------------------------------------------------
  // CreateTable(source workspace, target workspace, suffix, names)
  // ---------------------------------------------------------------------------

  const MSG_NO_WORKSPACES := "工作空间为空，请检查！"

  function CreateTableFailedMessage(name: string): string {
    "创建新表[" + name + "]失败"
  }

  /**
   * The target's tables while the loop runs, with whether a table has been
   * opened or created yet (`pTblTar != null`), or where a creation failed.
   */
  datatype TablesState =
    | Tables(tables: seq<DatasetInfo>, touched: bool)
    | TablesFailed(tables: seq<DatasetInfo>, name: string)

  /**
   * One non-empty source table: skipped when the filter excludes its new
   * name, opened when the target has a table of that name, created with the
   * source's attribute fields otherwise.
   */
  function CreateTableStep(src: DatasetInfo, st: TablesState, suffix: string, names: seq<string>,
                           canCreate: string -> bool): TablesState
    requires st.Tables?
  {
    var tblName := src.name + suffix;
    if !Admitted(tblName, names) then st
    else if tblName in Names(st.tables, NameOf) then Tables(st.tables, true)
    else if canCreate(tblName) then
      Tables(st.tables + [DatasetInfo(tblName, tblName, true, 0, AttributeFields(src.fields))], true)
    else TablesFailed(st.tables, tblName)
  }

  /** The state after the loop has handled the first k non-empty source tables. */
  function CreateTablesLoop(list: seq<DatasetInfo>, start: seq<DatasetInfo>, suffix: string,
                            names: seq<string>, canCreate: string -> bool, k: nat): TablesState
    requires k <= |list|
  {
    if k == 0 then Tables(start, false)
    else
      var st := CreateTablesLoop(list, start, suffix, names, canCreate, k - 1);
      if st.TablesFailed? then st else CreateTableStep(list[k - 1], st, suffix, names, canCreate)
  }

  /** Once a creation has failed, later source tables are not looked at. */
  lemma {:induction false} CreateTablesStaysFailed(list: seq<DatasetInfo>, start: seq<DatasetInfo>,
                                                   suffix: string, names: seq<string>,
                                                   canCreate: string -> bool, k1: nat, k2: nat)
    requires k1 <= k2 <= |list|
    requires CreateTablesLoop(list, start, suffix, names, canCreate, k1).TablesFailed?
    ensures CreateTablesLoop(list, start, suffix, names, canCreate, k2)
         == CreateTablesLoop(list, start, suffix, names, canCreate, k1)
  {
    if k2 > k1 {
      CreateTablesStaysFailed(list, start, suffix, names, canCreate, k1, k2 - 1);
    }
  }

  /** `pTblTar` is set exactly when the filter has admitted some source table. */
  lemma {:induction false} CreateTablesTouched(list: seq<DatasetInfo>, start: seq<DatasetInfo>,
                                               suffix: string, names: seq<string>,
                                               canCreate: string -> bool, k: nat)
    requires k <= |list|
    requires CreateTablesLoop(list, start, suffix, names, canCreate, k).Tables?
    ensures CreateTablesLoop(list, start, suffix, names, canCreate, k).touched
        <==> exists j :: 0 <= j < k && Admitted(list[j].name + suffix, names)
  {
    if k > 0 {
      CreateTablesTouched(list, start, suffix, names, canCreate, k - 1);
    }
  }

  /**
   * A completed loop leaves, for every source table the filter admits, a
   * table of its new name in the target.
   */
  lemma {:induction false} CreateTablesCovers(list: seq<DatasetInfo>, start: seq<DatasetInfo>,
                                              suffix: string, names: seq<string>,
                                              canCreate: string -> bool, k: nat)
    requires k <= |list|
    requires CreateTablesLoop(list, start, suffix, names, canCreate, k).Tables?
    ensures var c := CreateTablesLoop(list, start, suffix, names, canCreate, k).tables;
      forall j :: 0 <= j < k && Admitted(list[j].name + suffix, names) ==> list[j].name + suffix in Names(c, NameOf)
  {
    if k > 0 {
      CreateTablesCovers(list, start, suffix, names, canCreate, k - 1);
      var st := CreateTablesLoop(list, start, suffix, names, canCreate, k - 1);
      CreateTableStepCovers(list[k - 1], st, suffix, names, canCreate);
    }
  }

  /** One step keeps every name the target had and leaves the admitted new name in it. */
  lemma CreateTableStepCovers(src: DatasetInfo, st: TablesState, suffix: string, names: seq<string>,
                              canCreate: string -> bool)
    requires st.Tables?
    ensures var r := CreateTableStep(src, st, suffix, names, canCreate);
      r.Tables? ==>
        && (forall n :: n in Names(st.tables, NameOf) ==> n in Names(r.tables, NameOf))
        && (Admitted(src.name + suffix, names) ==> src.name + suffix in Names(r.tables, NameOf))
  {
    var tblName := src.name + suffix;
    var added := DatasetInfo(tblName, tblName, true, 0, AttributeFields(src.fields));
    NamesAppend(st.tables, [added], NameOf);
  }

  /**
   * A table the loop may have appended: empty, admitted, creatable, named by
   * one of the first k source tables plus the suffix, and holding that
   * table's attribute fields.
   */
  ghost predicate MadeFromSource(t: DatasetInfo, list: seq<DatasetInfo>, suffix: string, names: seq<string>,
                                 canCreate: string -> bool, k: nat)
  {
    && t.rowCount == 0 && Admitted(t.name, names) && canCreate(t.name)
    && exists j :: 0 <= j < k && j < |list| && t.name == list[j].name + suffix
                   && t.fields == AttributeFields(list[j].fields)
  }

  /** One step either leaves the tables alone or appends a table made from its source. */
  lemma CreateTableStepOnlyAdmitted(list: seq<DatasetInfo>, k: nat, st: TablesState, suffix: string,
                                    names: seq<string>, canCreate: string -> bool)
    requires 0 < k <= |list| && st.Tables?
    ensures var c := CreateTableStep(list[k - 1], st, suffix, names, canCreate).tables;
      || c == st.tables
      || exists t :: c == st.tables + [t] && MadeFromSource(t, list, suffix, names, canCreate, k)
  {
    var c := CreateTableStep(list[k - 1], st, suffix, names, canCreate).tables;
    var tblName := list[k - 1].name + suffix;
    if c != st.tables {
      var t := DatasetInfo(tblName, tblName, true, 0, AttributeFields(list[k - 1].fields));
      assert c == st.tables + [t];
      assert MadeFromSource(t, list, suffix, names, canCreate, k);
    }
  }

  /**
   * The loop only appends, and every table it appends is new, empty, named
   * by an admitted source table plus the suffix, and holds that table's
   * attribute fields.
   */
  lemma {:induction false} CreateTablesOnlyAdmitted(list: seq<DatasetInfo>, start: seq<DatasetInfo>,
                                                    suffix: string, names: seq<string>,
                                                    canCreate: string -> bool, k: nat)
    requires k <= |list|
    ensures var c := CreateTablesLoop(list, start, suffix, names, canCreate, k).tables;
      && start <= c
      && forall m :: |start| <= m < |c| ==> MadeFromSource(c[m], list, suffix, names, canCreate, k)
  {
    if k > 0 {
      CreateTablesOnlyAdmitted(list, start, suffix, names, canCreate, k - 1);
      var st := CreateTablesLoop(list, start, suffix, names, canCreate, k - 1);
      var c0 := st.tables;
      var c := CreateTablesLoop(list, start, suffix, names, canCreate, k).tables;
      if st.Tables? {
        CreateTableStepOnlyAdmitted(list, k, st, suffix, names, canCreate);
      }
      forall m | |start| <= m < |c|
        ensures MadeFromSource(c[m], list, suffix, names, canCreate, k)
      {
        if m < |c0| {
          assert c[m] == c0[m];
          assert MadeFromSource(c0[m], list, suffix, names, canCreate, k - 1);
        }
      }
    }
  }

  /**
   * The workspace-to-workspace CreateTable: for every non-empty source table
   * whose name plus suffix the filter admits, a table of that name is opened
   * in the target or created there; a failed creation stops the loop with an
   * error. The result is true when the source has no non-empty table, and
   * otherwise only when some table was opened or created.
   */
  method CreateTables(wsSrc: Workspace?, wsTar: Workspace?, suffix: string, tableNames: seq<string>,
                      canCreate: string -> bool)
    returns (ok: bool, error: string)
    modifies wsTar
    ensures wsSrc == null || wsTar == null ==> !ok && error == MSG_NO_WORKSPACES
    ensures wsSrc != null && wsTar != null ==>
      && wsTar.featureClasses == old(wsTar.featureClasses) && wsTar.featureDatasets == old(wsTar.featureDatasets)
      && var list := NonEmpty(old(wsSrc.tables));
         (|list| == 0 ==> ok && error == "" && wsTar.tables == old(wsTar.tables))
         && (|list| > 0 ==>
               match CreateTablesLoop(list, old(wsTar.tables), suffix, tableNames, canCreate, |list|)
               case Tables(c, touched) => ok == touched && error == "" && wsTar.tables == c
               case TablesFailed(c, n) => !ok && error == CreateTableFailedMessage(n) && wsTar.tables == c)
  {
    if wsSrc == null || wsTar == null {
      return false, MSG_NO_WORKSPACES;
    }
    error := "";
    var list := GetNotNullTable(wsSrc.tables);
    if |list| == 0 {
      return true, error;
    }
    ok, error := CreateTablesFrom(list, wsTar, suffix, tableNames, canCreate);
  }

  /** CreateTables's loop over a list of non-empty source tables. */
  method CreateTablesFrom(list: seq<DatasetInfo>, wsTar: Workspace, suffix: string, tableNames: seq<string>,
                          canCreate: string -> bool)
    returns (ok: bool, error: string)
    modifies wsTar
    ensures wsTar.featureClasses == old(wsTar.featureClasses) && wsTar.featureDatasets == old(wsTar.featureDatasets)
    ensures match CreateTablesLoop(list, old(wsTar.tables), suffix, tableNames, canCreate, |list|)
            case Tables(c, touched) => ok == touched && error == "" && wsTar.tables == c
            case TablesFailed(c, n) => !ok && error == CreateTableFailedMessage(n) && wsTar.tables == c
  {
    ghost var start := wsTar.tables;
    var touched := false;
    var i := 0;
    while i < |list|
      invariant 0 <= i <= |list|
      invariant wsTar.featureClasses == old(wsTar.featureClasses)
      invariant wsTar.featureDatasets == old(wsTar.featureDatasets)
      invariant CreateTablesLoop(list, start, suffix, tableNames, canCreate, i) == Tables(wsTar.tables, touched)
    {
      var failed;
      failed, touched := CreateNextTable(list, i, wsTar, suffix, tableNames, canCreate, start, touched);
      if failed {
        CreateTablesStaysFailed(list, start, suffix, tableNames, canCreate, i + 1, |list|);
        return false, CreateTableFailedMessage(list[i].name + suffix);
      }
      i := i + 1;
    }
    return touched, "";
  }

  /** One iteration of CreateTables's loop, stated against CreateTablesLoop. */
  method CreateNextTable(list: seq<DatasetInfo>, i: nat, wsTar: Workspace, suffix: string, tableNames: seq<string>,
                         canCreate: string -> bool, ghost start: seq<DatasetInfo>, touched0: bool)
    returns (failed: bool, touched: bool)
    requires i < |list|
    requires CreateTablesLoop(list, start, suffix, tableNames, canCreate, i) == Tables(wsTar.tables, touched0)
    modifies wsTar
    ensures wsTar.featureClasses == old(wsTar.featureClasses) && wsTar.featureDatasets == old(wsTar.featureDatasets)
    ensures failed ==>
      CreateTablesLoop(list, start, suffix, tableNames, canCreate, i + 1) == TablesFailed(wsTar.tables, list[i].name + suffix)
    ensures !failed ==>
      CreateTablesLoop(list, start, suffix, tableNames, canCreate, i + 1) == Tables(wsTar.tables, touched)
  {
    ghost var st := Tables(wsTar.tables, touched0);
    assert CreateTablesLoop(list, start, suffix, tableNames, canCreate, i + 1)
        == CreateTableStep(list[i], st, suffix, tableNames, canCreate);
    var tblName := list[i].name + suffix;
    if |tableNames| > 0 && tblName !in tableNames {
      return false, touched0;
    }
    if !wsTar.TableExists(tblName) {
      var created := CreateTable(wsTar, Some(list[i]), tblName, canCreate);
      if created.None? {
        return true, touched0;
      }
    }
    return false, true;
  }

  /** A filter that admits none of the non-empty source tables makes the result false. */
  lemma AllExcludedIsFalse(list: seq<DatasetInfo>, start: seq<DatasetInfo>, suffix: string,
                           names: seq<string>, canCreate: string -> bool)
    requires forall j :: 0 <= j < |list| ==> !Admitted(list[j].name + suffix, names)
    ensures CreateTablesLoop(list, start, suffix, names, canCreate, |list|) == Tables(start, false)
  {
    AllExcludedLoop(list, start, suffix, names, canCreate, |list|);
  }

  lemma {:induction false} AllExcludedLoop(list: seq<DatasetInfo>, start: seq<DatasetInfo>, suffix: string,
                                           names: seq<string>, canCreate: string -> bool, k: nat)
    requires k <= |list|
    requires forall j :: 0 <= j < k ==> !Admitted(list[j].name + suffix, names)
    ensures CreateTablesLoop(list, start, suffix, names, canCreate, k) == Tables(start, false)
  {
    if k > 0 {
      AllExcludedLoop(list, start, suffix, names, canCreate, k - 1);
    }
  }

  // ---------------------------------------------------------------------------
  // CopyTable(table, table)
  // ---------------------------------------------------------------------------

  const MSG_COPY_TABLE_NULL := "复制表格失败：表格对象为空！"

  /**
   * CopyTable(source, target, append): after its guards, every source row
   * becomes a new target row holding the source's editable, non-null values,
   * each in the target column of the same name; a missing column is added
   * when `append` holds and the value skipped otherwise. The cursor reads
   * the source as it stood when the copy began.
   */
  method CopyTable(src: Table?, tar: Table?, append: bool) returns (ok: bool, error: string)
    requires src != null ==> src.Valid()
    requires tar != null ==> tar.Valid()
    modifies tar
    ensures src == null || tar == null ==> !ok && error == MSG_COPY_TABLE_NULL
    ensures tar != null && (src == null || old(IsNullTable(src))) ==>
      tar.fields == old(tar.fields) && tar.rows == old(tar.rows)
    ensures src != null && tar != null && old(IsNullTable(src)) ==> ok && error == ""
    ensures src != null && tar != null && !old(IsNullTable(src)) ==>
      var st := Copy(Features(old(src.fields), old(src.rows)), CopyState(old(tar.fields), old(tar.rows), false),
                     append, TargetIndex, false, old(|src.rows|));
      && ok && error == ""
      && tar.fields == st.fields && tar.rows == st.rows
      && |tar.rows| == old(|tar.rows|) + old(|src.rows|)
  {
    if src == null || tar == null {
      return false, MSG_COPY_TABLE_NULL;
    }
    error := "";
    if IsNullTable(src) {
      return true, error;
    }
    var features := Features(src.fields, src.rows);
    ghost var start := CopyState(tar.fields, tar.rows, false);
    var threw, count, flushes := CopyRows(features, tar, append, TargetIndex, false, AfterEveryThousandth);
    TargetIndexInsertsEveryRow(features, start, append, |features|);
    return true, error;
  }

  // ---------------------------------------------------------------------------
  // FindSameRow(list, list)
  // ---------------------------------------------------------------------------

  /** The names of the editable fields, in order: the default compared fields. */
  function EditableNames(fields: seq<Field>): (names: seq<string>)
    ensures |names| <= |fields|
    ensures forall n :: n in names <==> exists f :: f in fields && f.editable && f.name == n
  {
    if fields == [] then []
    else
      var last := fields[|fields| - 1];
      var rest := EditableNames(fields[..|fields| - 1]);
      assert forall f :: f in fields <==> f in fields[..|fields| - 1] || f == last;
      rest + (if last.editable then [last.name] else [])
  }

  /** The loop that collects the default compared fields. */
  method CollectEditableNames(fields: seq<Field>) returns (names: seq<string>)
    ensures names == EditableNames(fields)
  {
    names := [];
    for j := 0 to |fields|
      invariant names == EditableNames(fields[..j])
    {
      assert fields[..j + 1][..j] == fields[..j];
      if fields[j].editable {
        names := names + [fields[j].name];
      }
    }
    assert fields[..|fields|] == fields;
  }

  /**
   * The field loop of FindSameRow on one pair of rows: the column pairs
   * compared as text, stopping at the first difference. With no columns the
   * target row is not touched; otherwise a null target row throws.
   */
  function RowFieldsAgree(s: Feature, t: Option<Feature>, idxSrc: seq<int>, idxTar: seq<int>): (r: Option<bool>)
    ensures idxSrc == [] ==> r == Some(true)
    ensures r == Some(true) && idxSrc != [] ==> t.Some? && AgreeUpTo(s, t.value, idxSrc, idxTar, |idxSrc|)
  {
    if idxSrc == [] then Some(true)
    else if t.None? then None
    else
      FieldsAgreeAtPasses(s, t.value, idxSrc, idxTar);
      FieldsAgreeAt(s, t.value, idxSrc, idxTar)
  }

  /**
   * FindSameRow's inner step as written: the field loop runs (and may
   * throw), but `isExist` is never set, so no target row ever counts as a
   * match.
   */
  function AsWrittenRowComparison(idxSrc: seq<int>, idxTar: seq<int>): Comparison {
    (s: Feature, t: Option<Feature>) =>
      if RowFieldsAgree(s, t, idxSrc, idxTar).None? then None else Some(false)
  }

  /** The evidently intended step: a target row matches when every column pair agrees. */
  function RowComparison(idxSrc: seq<int>, idxTar: seq<int>): Comparison {
    (s: Feature, t: Option<Feature>) => RowFieldsAgree(s, t, idxSrc, idxTar)
  }

  function FirstFields(rows: seq<Option<Feature>>): seq<Field>
    requires |rows| > 0
  {
    if rows[0].Some? then rows[0].value.fields else []
  }

  /** The compared fields: the given ones, or the editable fields of the first source row. */
  function ComparedNames(srcs: seq<Option<Feature>>, fields: seq<string>): seq<string>
    requires |srcs| > 0
  {
    if |fields| > 0 then fields else EditableNames(FirstFields(srcs))
  }

  /** The guards before the row loops dereference a null first row. */
  predicate FirstRowsThrow(srcs: seq<Option<Feature>>, tars: seq<Option<Feature>>, fields: seq<string>)
    requires |srcs| > 0 && |tars| > 0
  {
    || (|fields| == 0 && srcs[0].None?)
    || (|ComparedNames(srcs, fields)| > 0 && (srcs[0].None? || tars[0].None?))
  }

  /** Every compared name is in both first rows or in neither. */
  predicate Resolvable(names: seq<string>, srcFields: seq<Field>, tarFields: seq<Field>) {
    forall k :: 0 <= k < |names| ==> (FindField(srcFields, names[k]) == -1 <==> FindField(tarFields, names[k]) == -1)
  }

  function FindSameRowErrorMessage(message: string): string {
    "查找两个行集合相同的数据失败：" + message
  }

  /** The backward row loops with a given comparison, from an empty record. */
  function RowWindow(cmp: Comparison, srcs: seq<Option<Feature>>, tars: seq<Option<Feature>>,
                     found0: seq<Option<Feature>>): Window
  {
    WindowMatches(cmp, srcs, tars, Window(found0, |tars|, false, false), |srcs|)
  }

  /**
   * The shared shape of both versions of FindSameRow: the guards on empty
   * lists, the null first rows, the name resolution, then the row loops
   * with the given comparison (built from the resolved columns).
   */
  method FindSameRowWith(asWritten: bool, srcs: seq<Option<Feature>>, tars: seq<Option<Feature>>,
                         found0: seq<Option<Feature>>, error0: string, fields: seq<string>, exceptionMessage: string)
    returns (ok: bool, found: seq<Option<Feature>>, error: string)
    ensures |srcs| == 0 || |tars| == 0 ==> ok == (|srcs| == 0 ==> |tars| == 0) && found == found0 && error == error0
    ensures |srcs| > 0 && |tars| > 0 ==>
      var names := ComparedNames(srcs, fields);
      if FirstRowsThrow(srcs, tars, fields) then
        !ok && found == found0 && error == FindSameRowErrorMessage(exceptionMessage)
      else if !Resolvable(names, FirstFields(srcs), FirstFields(tars)) then
        !ok && found == found0 && error == error0
      else
        var idxSrc, idxTar := Resolved(FirstFields(srcs), names), Resolved(FirstFields(tars), names);
        var r := RowWindow(if asWritten then AsWrittenRowComparison(idxSrc, idxTar) else RowComparison(idxSrc, idxTar),
                           srcs, tars, found0);
        && found == r.found
        && ok == (r.isExist && !r.threw)
        && error == (if r.threw then FindSameRowErrorMessage(exceptionMessage) else error0)
  {
    if |srcs| == 0 || |tars| == 0 {
      return |srcs| == 0 ==> |tars| == 0, found0, error0;
    }
    if |fields| == 0 && srcs[0].None? {
      return false, found0, FindSameRowErrorMessage(exceptionMessage);
    }
    var names := fields;
    if |fields| == 0 {
      names := CollectEditableNames(srcs[0].value.fields);
    }
    if |names| > 0 && (srcs[0].None? || tars[0].None?) {
      return false, found0, FindSameRowErrorMessage(exceptionMessage);
    }
    var srcFields := if srcs[0].Some? then srcs[0].value.fields else [];
    var tarFields := if tars[0].Some? then tars[0].value.fields else [];
    var resolved, idxSrc, idxTar := ResolveIndices(names, srcFields, tarFields);
    if !resolved {
      return false, found0, error0;
    }
    var cmp := if asWritten then AsWrittenRowComparison(idxSrc, idxTar) else RowComparison(idxSrc, idxTar);
    var isExist, threw;
    found, isExist, threw := MatchWindow(cmp, srcs, tars, found0);
    if threw {
      return false, found, FindSameRowErrorMessage(exceptionMessage);
    }
    return isExist, found, error0;
  }

  /** As written, no comparison ever succeeds, so the loops record nothing. */
  lemma {:induction false} AsWrittenRecordsNothing(idxSrc: seq<int>, idxTar: seq<int>, srcs: seq<Option<Feature>>,
                                                   tars: seq<Option<Feature>>, found0: seq<Option<Feature>>, k: nat)
    requires k <= |srcs|
    ensures var r := WindowMatches(AsWrittenRowComparison(idxSrc, idxTar), srcs, tars,
                                   Window(found0, |tars|, false, false), k);
      !r.isExist && r.found == found0 && r.count == |tars|
  {
    if k > 0 {
      AsWrittenRecordsNothing(idxSrc, idxTar, srcs, tars, found0, k - 1);
      var cmp := AsWrittenRowComparison(idxSrc, idxTar);
      var st := WindowMatches(cmp, srcs, tars, Window(found0, |tars|, false, false), k - 1);
      var src := srcs[|srcs| - k];
      if !st.threw && src.Some? {
        var os := WindowOutcomes(cmp, src.value, tars, st.count);
        assert forall j :: 0 <= j < |os| ==> os[j] != Some(true);
      }
    }
  }

  /**
   * The list FindSameRow as written: (empty, empty) and (non-empty, empty)
   * give true, (empty, non-empty) false; otherwise the result is false and
   * no row is ever added to the caller's list.
   */
  method FindSameRow(srcs: seq<Option<Feature>>, tars: seq<Option<Feature>>, found0: seq<Option<Feature>>,
                     error0: string, fields: seq<string>, exceptionMessage: string)
    returns (ok: bool, found: seq<Option<Feature>>, error: string)
    ensures ok <==> |tars| == 0
    ensures found == found0
    ensures error == error0 || error == FindSameRowErrorMessage(exceptionMessage)
  {
    ok, found, error := FindSameRowWith(true, srcs, tars, found0, error0, fields, exceptionMessage);
    if |srcs| > 0 && |tars| > 0 && !FirstRowsThrow(srcs, tars, fields) {
      var names := ComparedNames(srcs, fields);
      AsWrittenRecordsNothing(Resolved(FirstFields(srcs), names), Resolved(FirstFields(tars), names),
                              srcs, tars, found0, |srcs|);
    }
  }

  /**
   * FindSameRow as evidently intended: like FindSameFeature, a source row
   * that agrees with a target row in the window on every compared column
   * records that target and shrinks the window. Past the guards the outcome
   * is that of the row loops with the intended comparison; every recorded
   * row agrees with some source row; and no more rows are recorded than
   * there are sources.
   */
  method FindSameRowIntended(srcs: seq<Option<Feature>>, tars: seq<Option<Feature>>, found0: seq<Option<Feature>>,
                             error0: string, fields: seq<string>, exceptionMessage: string)
    returns (ok: bool, found: seq<Option<Feature>>, error: string)
    ensures |srcs| > 0 && |tars| == 0 ==> ok
    ensures |srcs| == 0 ==> ok == (|tars| == 0)
    ensures |srcs| > 0 && |tars| > 0 && !FirstRowsThrow(srcs, tars, fields)
            && Resolvable(ComparedNames(srcs, fields), FirstFields(srcs), FirstFields(tars)) ==>
      var r := RowWindow(IntendedComparison(srcs, tars, fields), srcs, tars, found0);
      && found == r.found
      && ok == (r.isExist && !r.threw)
      && error == (if r.threw then FindSameRowErrorMessage(exceptionMessage) else error0)
    ensures found0 <= found && |found| - |found0| <= |srcs| && |found| - |found0| <= |tars|
    ensures ok && |srcs| > 0 && |tars| > 0 ==> |found| > |found0|
    ensures |srcs| > 0 && |tars| > 0 && |found| > |found0| ==>
      var names := ComparedNames(srcs, fields);
      forall m :: |found0| <= m < |found| ==>
        exists i :: 0 <= i < |srcs| && srcs[i].Some? &&
          RowFieldsAgree(srcs[i].value, found[m], Resolved(FirstFields(srcs), names),
                         Resolved(FirstFields(tars), names)) == Some(true)
  {
    ok, found, error := FindSameRowWith(false, srcs, tars, found0, error0, fields, exceptionMessage);
    if |srcs| > 0 && |tars| > 0 && !FirstRowsThrow(srcs, tars, fields) {
      var names := ComparedNames(srcs, fields);
      if Resolvable(names, FirstFields(srcs), FirstFields(tars)) {
        var idxSrc, idxTar := Resolved(FirstFields(srcs), names), Resolved(FirstFields(tars), names);
        var cmp := RowComparison(idxSrc, idxTar);
        WindowMatchesKept(cmp, srcs, tars, found0, |srcs|);
        var added := found[|found0|..];
        assert found[..|found0|] == found0;
        forall m | |found0| <= m < |found|
          ensures exists i :: 0 <= i < |srcs| && srcs[i].Some? &&
                    RowFieldsAgree(srcs[i].value, found[m], idxSrc, idxTar) == Some(true)
        {
          assert added[m - |found0|] == found[m];
          assert MatchesSomeSource(cmp, srcs, added[m - |found0|]);
        }
      }
    }
  }

  /** The intended row comparison, on the columns the names resolve to in the first rows. */
  function IntendedComparison(srcs: seq<Option<Feature>>, tars: seq<Option<Feature>>, fields: seq<string>): Comparison
    requires |srcs| > 0 && |tars| > 0
  {
    var names := ComparedNames(srcs, fields);
    RowComparison(Resolved(FirstFields(srcs), names), Resolved(FirstFields(tars), names))
  }

  /**
   * The intended FindSameRow misses nothing: a non-null source row that
   * agrees with some target row on every compared column makes the loops
   * record a row, unless a comparison threw.
   */
  lemma FindSameRowIntendedComplete(srcs: seq<Option<Feature>>, tars: seq<Option<Feature>>,
                                    found0: seq<Option<Feature>>, fields: seq<string>, i: nat, j: nat)
    requires i < |srcs| && j < |tars| && srcs[i].Some?
    requires var names := ComparedNames(srcs, fields);
      RowFieldsAgree(srcs[i].value, tars[j], Resolved(FirstFields(srcs), names), Resolved(FirstFields(tars), names))
        == Some(true)
    ensures var r := RowWindow(IntendedComparison(srcs, tars, fields), srcs, tars, found0);
      r.threw || (r.isExist && |r.found| > |found0|)
  {
    var cmp := IntendedComparison(srcs, tars, fields);
    WindowMatchesComplete(cmp, srcs, tars, found0, |srcs|);
    WindowMatchesKept(cmp, srcs, tars, found0, |srcs|);
    assert cmp(srcs[i].value, tars[j]) == Some(true);
  }

  /**
   * The smallest input that shows the difference: one row on each side,
   * equal in their single editable field. With FindSameRow's own defaults
   * that field "A" is the one compared, at column 0 on both sides. As
   * written nothing is found; as intended the target row is found.
   */
  lemma FindSameRowMissesEqualRows()
    ensures var a := Field("A", "A", StringField, true, true);
      var row := Feature([a], [Text("x")]);
      && ComparedNames([Some(row)], []) == ["A"]
      && Resolved(row.fields, ["A"]) == [0]
      && !RowWindow(AsWrittenRowComparison([0], [0]), [Some(row)], [Some(row)], []).isExist
      && RowWindow(RowComparison([0], [0]), [Some(row)], [Some(row)], []) == Window([Some(row)], 0, true, false)
  {
    var a := Field("A", "A", StringField, true, true);
    var row := Feature([a], [Text("x")]);
    assert [a][..0] == [];
    AsWrittenRecordsNothing([0], [0], [Some(row)], [Some(row)], [], 1);
    var os := WindowOutcomes(RowComparison([0], [0]), row, [Some(row)], 1);
    assert FieldsAgreeAt(row, row, [0], [0]) == Some(true) by {
      assert [0][1..] == [];
    }
    assert os == [Some(true)];
  }
}
