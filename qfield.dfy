/**
 * Field helpers (QArcGISLib/QField.cs): listing the user fields of a feature
 * class, adding a field only when it is absent, and writing one value into a
 * column, either on every feature or on the features a where clause selects.
 *
 * A where clause is modelled by the predicate it stands for on a row's
 * values. Schema locks and the engine's type checks on values are not part
 * of this model.
 */
module QField {
  import opened Wrappers
  import opened Geodatabase

  // ---------------------------------------------------------------------------
  // GetFields
  // ---------------------------------------------------------------------------

  const MSG_NO_WORKSPACE := "根据图层名获取字段名以及字段别名：工作空间为空！"

  function ClassNotFoundMessage(featureClassName: string): string {
    "要素类[" + featureClassName + "]获取失败！"
  }

  /** A field GetFields lists: not the object id and not a shape column. */
  predicate KeepField(f: Field) {
    Upper(f.name) != "OBJECTID" && !ContainsText(Upper(f.name), "SHAPE")
  }

  /** The listed fields, in schema order. */
  function KeptFields(fields: seq<Field>): (kept: seq<Field>)
    ensures |kept| <= |fields|
  {
    if fields == [] then []
    else
      var last := fields[|fields| - 1];
      KeptFields(fields[..|fields| - 1]) + (if KeepField(last) then [last] else [])
  }

  function Names(fields: seq<Field>): (names: seq<string>)
    ensures |names| == |fields|
    ensures forall k :: 0 <= k < |fields| ==> names[k] == fields[k].name
  {
    if fields == [] then [] else Names(fields[..|fields| - 1]) + [fields[|fields| - 1].name]
  }

  function AliasNames(fields: seq<Field>): (aliases: seq<string>)
    ensures |aliases| == |fields|
    ensures forall k :: 0 <= k < |fields| ==> aliases[k] == fields[k].aliasName
  {
    if fields == [] then [] else AliasNames(fields[..|fields| - 1]) + [fields[|fields| - 1].aliasName]
  }

  /** The filter keeps exactly the fields that pass KeepField. */
  lemma {:induction false} KeptFieldsAreTheKeptOnes(fields: seq<Field>)
    ensures forall f :: f in KeptFields(fields) <==> f in fields && KeepField(f)
  {
    if fields != [] {
      var init := fields[..|fields| - 1];
      KeptFieldsAreTheKeptOnes(init);
      assert fields == init + [fields[|fields| - 1]];
    }
  }

  /** The filter works field by field: the order of the schema is kept. */
  lemma {:induction false} KeptFieldsDistribute(a: seq<Field>, b: seq<Field>)
    ensures KeptFields(a + b) == KeptFields(a) + KeptFields(b)
  {
    if b == [] {
      assert a + b == a;
    } else {
      var init := b[..|b| - 1];
      assert (a + b)[..|a + b| - 1] == a + init;
      KeptFieldsDistribute(a, init);
    }
  }

  /** A name without lower-case letters is its own upper-case form. */
  lemma UpperOfUpperCase(s: string)
    requires forall k :: 0 <= k < |s| ==> !('a' <= s[k] <= 'z')
    ensures Upper(s) == s
  {
  }

  /** The object id column is dropped whatever its case. */
  lemma ObjectIdDropped(f: Field)
    requires f.name == "OBJECTID" || f.name == "ObjectId" || f.name == "objectid"
    ensures !KeepField(f)
  {
    var u := Upper(f.name);
    assert |u| == 8;
    assert u[0] == 'O' && u[1] == 'B' && u[2] == 'J' && u[3] == 'E';
    assert u[4] == 'C' && u[5] == 'T' && u[6] == 'I' && u[7] == 'D';
    assert u == "OBJECTID";
  }

  /** Any field whose name starts with Shape, in any of its usual spellings, is dropped. */
  lemma ShapeColumnsDropped(f: Field)
    requires |f.name| >= 5
    requires f.name[..5] == "Shape" || f.name[..5] == "SHAPE" || f.name[..5] == "shape"
    ensures !KeepField(f)
  {
    var u := Upper(f.name);
    assert u[0] == 'S' && u[1] == 'H' && u[2] == 'A' && u[3] == 'P' && u[4] == 'E';
    assert u[..5] == "SHAPE";
  }

  /** A text without the letter S cannot contain SHAPE. */
  lemma {:induction false} NoShapeWithoutS(s: string)
    requires forall k :: 0 <= k < |s| ==> s[k] != 'S'
    ensures !ContainsText(s, "SHAPE")
  {
    if |s| >= 5 {
      assert s[..5][0] != 'S';
      NoShapeWithoutS(s[1..]);
    }
  }

  /** Only the exact name OBJECTID is excluded: OBJECTID_1 is listed. */
  lemma SimilarNamesKept(f: Field)
    requires f.name == "OBJECTID_1"
    ensures KeepField(f)
  {
    UpperOfUpperCase(f.name);
    NoShapeWithoutS(f.name);
  }

  /** One more field of the schema extends both lists by at most its own entry. */
  lemma KeptFieldsStep(fields: seq<Field>, i: nat, names: seq<string>, aliases: seq<string>)
    requires i < |fields|
    ensures names + Names(KeptFields(fields[..i + 1]))
         == names + Names(KeptFields(fields[..i])) + (if KeepField(fields[i]) then [fields[i].name] else [])
    ensures aliases + AliasNames(KeptFields(fields[..i + 1]))
         == aliases + AliasNames(KeptFields(fields[..i])) + (if KeepField(fields[i]) then [fields[i].aliasName] else [])
  {
    assert fields[..i + 1][..i] == fields[..i];
    var k := KeptFields(fields[..i]);
    if KeepField(fields[i]) {
      assert (k + [fields[i]])[..|k|] == k;
    }
  }

  /**
   * GetFields: appends the name and the alias of every kept field of the
   * named feature class to the two lists, in lockstep.
   */
  method GetFields(ws: Workspace?, featureClassName: string,
                   listFieldName: seq<string>, listFieldAliasName: seq<string>)
    returns (ok: bool, fieldNames: seq<string>, aliasNames: seq<string>, error: string)
    ensures ws == null ==>
      !ok && error == MSG_NO_WORKSPACE && fieldNames == listFieldName && aliasNames == listFieldAliasName
    ensures ws != null && ws.OpenFeatureClass(featureClassName).None? ==>
      !ok && error == ClassNotFoundMessage(featureClassName)
      && fieldNames == listFieldName && aliasNames == listFieldAliasName
    ensures ws != null && ws.OpenFeatureClass(featureClassName).Some? ==>
      var kept := KeptFields(ws.OpenFeatureClass(featureClassName).value.fields);
      ok && error == ""
      && fieldNames == listFieldName + Names(kept)
      && aliasNames == listFieldAliasName + AliasNames(kept)
  {
    fieldNames, aliasNames := listFieldName, listFieldAliasName;
    if ws == null {
      return false, fieldNames, aliasNames, MSG_NO_WORKSPACE;
    }
    var featureClass := ws.OpenFeatureClass(featureClassName);
    if featureClass.None? {
      return false, fieldNames, aliasNames, ClassNotFoundMessage(featureClassName);
    }
    fieldNames, aliasNames := AppendKeptFields(featureClass.value.fields, fieldNames, aliasNames);
    return true, fieldNames, aliasNames, "";
  }

  /** The field loop of GetFields. */
  method AppendKeptFields(fields: seq<Field>, listFieldName: seq<string>, listFieldAliasName: seq<string>)
    returns (fieldNames: seq<string>, aliasNames: seq<string>)
    ensures fieldNames == listFieldName + Names(KeptFields(fields))
    ensures aliasNames == listFieldAliasName + AliasNames(KeptFields(fields))
  {
    fieldNames, aliasNames := listFieldName, listFieldAliasName;
    var i := 0;
    while i < |fields|
      invariant 0 <= i <= |fields|
      invariant fieldNames == listFieldName + Names(KeptFields(fields[..i]))
      invariant aliasNames == listFieldAliasName + AliasNames(KeptFields(fields[..i]))
    {
      KeptFieldsStep(fields, i, listFieldName, listFieldAliasName);
      var keep := KeepField(fields[i]);
      if keep {
        fieldNames := fieldNames + [fields[i].name];
        aliasNames := aliasNames + [fields[i].aliasName];
      }
      i := i + 1;
    }
    assert fields[..i] == fields;
  }

  /**
   * The two lists GetFields returns grow by the same amount, and position k of
   * the added part names the same field in both.
   */
  lemma GetFieldsLockstep(fields: seq<Field>, names: seq<string>, aliases: seq<string>)
    ensures |names + Names(KeptFields(fields))| - |names| == |aliases + AliasNames(KeptFields(fields))| - |aliases|
    ensures forall k :: 0 <= k < |KeptFields(fields)| ==>
      (names + Names(KeptFields(fields)))[|names| + k] == KeptFields(fields)[k].name
      && (aliases + AliasNames(KeptFields(fields)))[|aliases| + k] == KeptFields(fields)[k].aliasName
  {
  }

  // ---------------------------------------------------------------------------
  // AddField
  // ---------------------------------------------------------------------------

  /** The field AddField builds: editable, alias defaulting to the name. */
  function NewField(fieldname: string, fieldtype: FieldType, aliasname: string, isNullable: bool): (f: Field)
    ensures f.name == fieldname && f.fieldType == fieldtype && f.isNullable == isNullable
    ensures f.editable
    ensures aliasname == "" ==> f.aliasName == fieldname
    ensures aliasname != "" ==> f.aliasName == aliasname
  {
    Field(fieldname, if aliasname == "" then fieldname else aliasname, fieldtype, isNullable, true)
  }

  /** The schema after AddField. */
  function WithField(fields: seq<Field>, fieldname: string, fieldtype: FieldType,
                     aliasname: string, isNullable: bool): (r: seq<Field>)
    ensures FindField(r, fieldname) != -1
    ensures |fields| <= |r| && r[..|fields|] == fields
  {
    if FindField(fields, fieldname) == -1 then
      FindFieldAppend(fields, NewField(fieldname, fieldtype, aliasname, isNullable), fieldname);
      assert (fields + [NewField(fieldname, fieldtype, aliasname, isNullable)])[..|fields|] == fields;
      fields + [NewField(fieldname, fieldtype, aliasname, isNullable)]
    else fields
  }

  /**
   * A field is added exactly when its name is absent; it is then the last
   * field, editable, with the requested type and nullability and the alias
   * defaulting to the name. A present name leaves the schema as it was.
   */
  lemma AddFieldOnlyWhenAbsent(fields: seq<Field>, fieldname: string, fieldtype: FieldType,
                               aliasname: string, isNullable: bool)
    ensures FindField(fields, fieldname) != -1 ==>
      WithField(fields, fieldname, fieldtype, aliasname, isNullable) == fields
    ensures FindField(fields, fieldname) == -1 ==>
      var r := WithField(fields, fieldname, fieldtype, aliasname, isNullable);
      |r| == |fields| + 1 && FindField(r, fieldname) == |fields|
      && r[|fields|].editable && r[|fields|].fieldType == fieldtype
      && r[|fields|].isNullable == isNullable
      && r[|fields|].aliasName == (if aliasname == "" then fieldname else aliasname)
  {
    if FindField(fields, fieldname) == -1 {
      FindFieldAppend(fields, NewField(fieldname, fieldtype, aliasname, isNullable), fieldname);
    }
  }

  /** A second AddField with the same name changes nothing, whatever its other arguments. */
  lemma AddFieldIdempotent(fields: seq<Field>, fieldname: string,
                           t1: FieldType, a1: string, n1: bool, t2: FieldType, a2: string, n2: bool)
    ensures WithField(WithField(fields, fieldname, t1, a1, n1), fieldname, t2, a2, n2)
         == WithField(fields, fieldname, t1, a1, n1)
  {
  }

  /** Rows after a column was appended: each gets a null in the new column. */
  function PadRows(rows: seq<seq<Value>>): (r: seq<seq<Value>>)
    ensures |r| == |rows|
    ensures forall k :: 0 <= k < |rows| ==> r[k] == rows[k] + [DBNull]
  {
    seq(|rows|, k requires 0 <= k < |rows| => rows[k] + [DBNull])
  }

  /**
   * AddField, both overloads (table and feature class run the same code):
   * appends the field when FindField reports it missing, and returns true.
   * A null table throws on its first use; the catch returns false with the
   * exception's message. `error0` is the caller's message, otherwise left
   * alone.
   */
  method AddField(table: Table?, error0: string, fieldname: string, fieldtype: FieldType,
                  aliasname: string, isNullable: bool, exceptionMessage: string) returns (ok: bool, error: string)
    requires table != null ==> table.Valid()
    modifies table
    ensures table == null ==> !ok && error == exceptionMessage
    ensures table != null ==>
      && ok && error == error0 && table.Valid()
      && table.name == old(table.name)
      && table.fields == WithField(old(table.fields), fieldname, fieldtype, aliasname, isNullable)
      && table.rows == if FindField(old(table.fields), fieldname) == -1 then PadRows(old(table.rows))
                       else old(table.rows)
  {
    if table == null {
      return false, exceptionMessage;
    }
    var index := FindField(table.fields, fieldname);
    if index == -1 {
      var field := Field(fieldname, if aliasname == "" then fieldname else aliasname,
                         fieldtype, isNullable, true);
      table.fields := table.fields + [field];
      table.rows := PadRows(table.rows);
    }
    return true, error0;
  }

  // ---------------------------------------------------------------------------
  // SetFieldValue
  // ---------------------------------------------------------------------------

  /** Every row with column `i` set to `v`. */
  function SetColumn(rows: seq<seq<Value>>, i: nat, v: Value): (r: seq<seq<Value>>)
    requires forall row :: row in rows ==> i < |row|
    ensures |r| == |rows|
  {
    seq(|rows|, k requires 0 <= k < |rows| => rows[k][i := v])
  }

  /** The rows a where clause selects get column `i` set to `v`; the others are kept. */
  function SetColumnWhere(rows: seq<seq<Value>>, i: nat, v: Value, where: seq<Value> -> bool): (r: seq<seq<Value>>)
    requires forall row :: row in rows ==> i < |row|
    ensures |r| == |rows|
  {
    seq(|rows|, k requires 0 <= k < |rows| => if where(rows[k]) then rows[k][i := v] else rows[k])
  }

  /**
   * After SetColumn, column i reads v in every row and every other column
   * keeps its value; the row lengths are kept.
   */
  lemma SetColumnReadsBack(rows: seq<seq<Value>>, i: nat, v: Value)
    requires forall row :: row in rows ==> i < |row|
    ensures forall k :: 0 <= k < |rows| ==> |SetColumn(rows, i, v)[k]| == |rows[k]|
    ensures forall k :: 0 <= k < |rows| ==> SetColumn(rows, i, v)[k][i] == v
    ensures forall k, j :: 0 <= k < |rows| && 0 <= j < |rows[k]| && j != i ==>
      SetColumn(rows, i, v)[k][j] == rows[k][j]
  {
  }

  /** With a clause every row satisfies, the filtered update is the full one. */
  lemma SetColumnWhereAll(rows: seq<seq<Value>>, i: nat, v: Value, where: seq<Value> -> bool)
    requires forall row :: row in rows ==> i < |row|
    requires forall k :: 0 <= k < |rows| ==> where(rows[k])
    ensures SetColumnWhere(rows, i, v, where) == SetColumn(rows, i, v)
  {
  }

  /** The rows a clause leaves out are untouched; the rows it selects read v. */
  lemma SetColumnWhereTouchesOnlySelected(rows: seq<seq<Value>>, i: nat, v: Value, where: seq<Value> -> bool)
    requires forall row :: row in rows ==> i < |row|
    ensures forall k :: 0 <= k < |rows| && !where(rows[k]) ==> SetColumnWhere(rows, i, v, where)[k] == rows[k]
    ensures forall k :: 0 <= k < |rows| && where(rows[k]) ==> SetColumnWhere(rows, i, v, where)[k][i] == v
  {
  }

  /**
   * SetFieldValue on every feature: with the field missing, setting the first
   * feature throws and the result is false; with no features it is true. A
   * null feature class throws at once, and the result is false.
   */
  method SetFieldValue(featureClass: Table?, field: string, value: Value) returns (ok: bool)
    requires featureClass != null ==> featureClass.Valid()
    modifies featureClass
    ensures featureClass == null ==> !ok
    ensures featureClass != null ==>
      && featureClass.Valid()
      && featureClass.fields == old(featureClass.fields)
      && (ok <==> old(featureClass.rows) == [] || FindField(featureClass.fields, field) != -1)
      && featureClass.rows ==
           if FindField(featureClass.fields, field) == -1 then old(featureClass.rows)
           else SetColumn(old(featureClass.rows), FindField(featureClass.fields, field), value)
  {
    if featureClass == null {
      return false;
    }
    var index := FindField(featureClass.fields, field);
    var k := 0;
    while k < |featureClass.rows|
      invariant 0 <= k <= |featureClass.rows|
      invariant featureClass.fields == old(featureClass.fields)
      invariant |featureClass.rows| == |old(featureClass.rows)|
      invariant k > 0 ==> index != -1
      invariant forall j :: 0 <= j < k ==> featureClass.rows[j] == old(featureClass.rows)[j][index := value]
      invariant forall j :: k <= j < |featureClass.rows| ==> featureClass.rows[j] == old(featureClass.rows)[j]
    {
      if index == -1 {
        // set_Value(-1, ...) throws on the first feature
        return false;
      }
      assert old(featureClass.rows)[k] in old(featureClass.rows);
      featureClass.rows := featureClass.rows[k := featureClass.rows[k][index := value]];
      k := k + 1;
    }
    return true;
  }

  /** The indices of the rows a where clause selects, in cursor order. */
  function Matching(rows: seq<seq<Value>>, where: seq<Value> -> bool): (m: seq<nat>)
    ensures forall k :: k in m <==> 0 <= k < |rows| && where(rows[k])
    ensures forall j :: 0 <= j < |m| ==> m[j] < |rows|
  {
    if rows == [] then []
    else Matching(rows[..|rows| - 1], where)
         + (if where(rows[|rows| - 1]) then [|rows| - 1] else [])
  }

  /** Sets column `index` on the listed rows, one Store per feature. */
  method StoreMatched(featureClass: Table, listFeature: seq<nat>, index: nat, value: Value)
    requires featureClass.Valid()
    requires forall j :: 0 <= j < |listFeature| ==> listFeature[j] < |featureClass.rows|
    requires index < |featureClass.fields|
    modifies featureClass
    ensures featureClass.Valid()
    ensures featureClass.fields == old(featureClass.fields)
    ensures |featureClass.rows| == |old(featureClass.rows)|
    ensures forall k :: 0 <= k < |featureClass.rows| ==>
      featureClass.rows[k] == if k in listFeature then old(featureClass.rows)[k][index := value]
                              else old(featureClass.rows)[k]
  {
    var i := 0;
    while i < |listFeature|
      invariant 0 <= i <= |listFeature|
      invariant featureClass.fields == old(featureClass.fields)
      invariant |featureClass.rows| == |old(featureClass.rows)|
      invariant forall k :: 0 <= k < |featureClass.rows| ==>
        featureClass.rows[k] == if k in listFeature[..i] then old(featureClass.rows)[k][index := value]
                                else old(featureClass.rows)[k]
    {
      var k := listFeature[i];
      assert old(featureClass.rows)[k] in old(featureClass.rows);
      featureClass.rows := featureClass.rows[k := featureClass.rows[k][index := value]];
      assert listFeature[..i + 1] == listFeature[..i] + [k];
      i := i + 1;
    }
    assert listFeature[..i] == listFeature;
  }

  /** Updating exactly the matched rows is the filtered column update. */
  lemma MatchedRowsUpdated(rows0: seq<seq<Value>>, rows: seq<seq<Value>>, i: nat, v: Value,
                           where: seq<Value> -> bool)
    requires forall row :: row in rows0 ==> i < |row|
    requires |rows| == |rows0|
    requires forall k :: 0 <= k < |rows0| ==>
      rows[k] == if k in Matching(rows0, where) then rows0[k][i := v] else rows0[k]
    ensures rows == SetColumnWhere(rows0, i, v, where)
  {
  }

  /**
   * SetFieldValue with a where clause: false when no feature matches;
   * otherwise every matched feature gets the value, false when the field is
   * missing (the first write throws). A null feature class throws at once,
   * and the result is false.
   */
  method SetFieldValueWhere(featureClass: Table?, field: string, value: Value,
                            whereClause: seq<Value> -> bool) returns (ok: bool)
    requires featureClass != null ==> featureClass.Valid()
    modifies featureClass
    ensures featureClass == null ==> !ok
    ensures featureClass != null ==>
      && featureClass.Valid()
      && featureClass.fields == old(featureClass.fields)
      && (ok <==> (exists k :: 0 <= k < |old(featureClass.rows)| && whereClause(old(featureClass.rows)[k]))
                  && FindField(featureClass.fields, field) != -1)
      && featureClass.rows ==
           if !ok then old(featureClass.rows)
           else SetColumnWhere(old(featureClass.rows), FindField(featureClass.fields, field), value, whereClause)
  {
    if featureClass == null {
      return false;
    }
    var listFeature := Matching(featureClass.rows, whereClause);
    if |listFeature| == 0 {
      assert forall k :: 0 <= k < |featureClass.rows| ==> k !in listFeature;
      return false;
    }
    var index := FindField(featureClass.fields, field);
    if index == -1 {
      // set_Value(-1, ...) throws on the first matched feature
      return false;
    }
    ghost var rows0 := featureClass.rows;
    StoreMatched(featureClass, listFeature, index, value);
    assert listFeature[0] in listFeature;
    MatchedRowsUpdated(rows0, featureClass.rows, index, value, whereClause);
    return true;
  }
}
