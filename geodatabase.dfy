/**
 * The geodatabase object model the helper classes drive, reduced to what
 * their decision logic observes.
 *
 * A workspace is three ordered collections: its standalone feature classes,
 * its feature datasets (each with its subsets) and its tables. Each of them
 * is a record holding a name, an alias name, whether the engine lets it be
 * deleted, its row count and its fields. Row-level operations (adding a
 * field, setting values, copying rows) work on a `Table` object whose field
 * list and rows they update in place; a feature class is such a table with
 * a geometry field. A row or feature handed around in a list carries its own
 * field list, as the engine's IRow.Fields does.
 */
module Geodatabase {
  import opened Wrappers

  // ---------------------------------------------------------------------------
  // Fields and values
  // ---------------------------------------------------------------------------

  datatype FieldType =
    | SmallIntegerField | IntegerField | SingleField | DoubleField | StringField
    | DateField | OIDField | GeometryField | BlobField | RasterField | GuidField
    | GlobalIDField | XmlField

  datatype Field = Field(name: string, aliasName: string, fieldType: FieldType,
                         isNullable: bool, editable: bool)

  /** A geometry, compared only through the relational predicates. */
  datatype Shape = Shape(vertices: seq<(real, real)>)

  /** A field value: the database null, a scalar written as text, or a geometry. */
  datatype Value = DBNull | Text(text: string) | Geom(shape: Shape)

  /**
   * Object.ToString of a value: DBNull prints as the empty string and a
   * geometry, being a COM object, prints as its runtime type name.
   */
  function ValueString(v: Value): (s: string)
    ensures v.Text? ==> s == v.text
    ensures v.DBNull? ==> s == ""
  {
    match v
    case DBNull => ""
    case Text(t) => t
    case Geom(_) => "System.__ComObject"
  }

  /** A row or feature detached from its table, as held in a List<IRow>. */
  datatype Feature = Feature(fields: seq<Field>, values: seq<Value>)

  /**
   * IFields.FindField: the index of the first field with that name, -1 when
   * there is none.
   */
  function FindField(fields: seq<Field>, name: string): (i: int)
    ensures -1 <= i < |fields|
    ensures i >= 0 ==> fields[i].name == name
  {
    if fields == [] then -1
    else if fields[0].name == name then 0
    else
      var j := FindField(fields[1..], name);
      if j == -1 then -1 else j + 1
  }

  /** FindField finds the first field of that name, and -1 means that no field has it. */
  lemma {:induction false} FindFieldFirst(fields: seq<Field>, name: string)
    ensures FindField(fields, name) >= 0 ==>
              forall k :: 0 <= k < FindField(fields, name) ==> fields[k].name != name
    ensures FindField(fields, name) == -1 <==> forall k :: 0 <= k < |fields| ==> fields[k].name != name
  {
    if fields != [] && fields[0].name != name {
      FindFieldFirst(fields[1..], name);
      assert forall k :: 1 <= k < |fields| ==> fields[k] == fields[1..][k - 1];
    }
  }

  /** A field's own name is found, at its position or at an earlier field of the same name. */
  lemma {:induction false} FindFieldFinds(fields: seq<Field>, k: nat)
    requires k < |fields|
    ensures 0 <= FindField(fields, fields[k].name) <= k
  {
    if k > 0 && fields[0].name != fields[k].name {
      assert fields[1..][k - 1] == fields[k];
      FindFieldFinds(fields[1..], k - 1);
    }
  }

  /** Appending a field never moves an existing name; a new name lands at the end. */
  lemma {:induction false} FindFieldAppend(fields: seq<Field>, f: Field, name: string)
    ensures FindField(fields + [f], name) ==
      if FindField(fields, name) != -1 then FindField(fields, name)
      else if f.name == name then |fields| else -1
  {
    if fields == [] {
      assert fields + [f] == [f];
    } else {
      assert (fields + [f])[1..] == fields[1..] + [f];
      FindFieldAppend(fields[1..], f, name);
    }
  }

  /** A name found in a prefix of a schema is found at the same index in the whole. */
  lemma {:induction false} FindFieldPrefix(p: seq<Field>, s: seq<Field>, name: string)
    requires p <= s
    requires FindField(p, name) != -1
    ensures FindField(s, name) == FindField(p, name)
  {
    if p[0].name != name {
      assert p[1..] <= s[1..];
      FindFieldPrefix(p[1..], s[1..], name);
    }
  }

  /** The index of the first geometry field, -1 when there is none. */
  function ShapeFieldIndex(fields: seq<Field>): (i: int)
    ensures -1 <= i < |fields|
    ensures i >= 0 ==> fields[i].fieldType == GeometryField
    ensures i == -1 <==> forall k :: 0 <= k < |fields| ==> fields[k].fieldType != GeometryField
  {
    if fields == [] then -1
    else if fields[0].fieldType == GeometryField then 0
    else
      var j := ShapeFieldIndex(fields[1..]);
      if j == -1 then -1 else j + 1
  }

  /** IFeature.Shape: the value of the shape field, null when it holds none. */
  function ShapeOf(f: Feature): (s: Option<Shape>)
    ensures s.Some? ==> Geom(s.value) in f.values
  {
    var i := ShapeFieldIndex(f.fields);
    if 0 <= i < |f.values| && f.values[i].Geom? then Some(f.values[i].shape) else None
  }

  // ---------------------------------------------------------------------------
  // String helpers the source takes from System.String
  // ---------------------------------------------------------------------------

  /** Char.ToUpper on an ASCII letter. */
  function UpperChar(c: char): char {
    if 'a' <= c <= 'z' then (c as int - 32) as char else c
  }

  /** String.ToUpper on the ASCII letters. */
  function Upper(s: string): (u: string)
    ensures |u| == |s|
    ensures forall k :: 0 <= k < |s| ==> u[k] == UpperChar(s[k])
  {
    if s == [] then ""
    else [UpperChar(s[0])] + Upper(s[1..])
  }

  /** String.Contains: `part` occurs somewhere in `s`. */
  predicate ContainsText(s: string, part: string)
    decreases |s|
  {
    |part| <= |s| && (s[..|part|] == part || ContainsText(s[1..], part))
  }

  // ---------------------------------------------------------------------------
  // Workspace contents
  // ---------------------------------------------------------------------------

  /** A feature class or a table as a workspace lists it. */
  datatype DatasetInfo = DatasetInfo(name: string, aliasName: string, canDelete: bool,
                                     rowCount: nat, fields: seq<Field>)

  /** A feature dataset and the feature classes it contains. */
  datatype FeatureDatasetInfo = FeatureDatasetInfo(name: string, canDelete: bool,
                                                   subsets: seq<DatasetInfo>)

  /** IDataset.Name, IFeatureClass.AliasName and IDataset.CanDelete, as function values. */
  function NameOf(d: DatasetInfo): string { d.name }
  function AliasOf(d: DatasetInfo): string { d.aliasName }
  function CanDelete(d: DatasetInfo): bool { d.canDelete }
  function DatasetNameOf(d: FeatureDatasetInfo): string { d.name }
  function DatasetCanDelete(d: FeatureDatasetInfo): bool { d.canDelete }

  /** The names of a list of records, position by position; nameOf reads a record's name. */
  function Names<T>(ds: seq<T>, nameOf: T -> string): (names: seq<string>)
    ensures |names| == |ds|
    ensures forall k :: 0 <= k < |ds| ==> names[k] == nameOf(ds[k])
  {
    if ds == [] then [] else [nameOf(ds[0])] + Names(ds[1..], nameOf)
  }

  /** The names of two lists one after the other are the names of the joined list. */
  lemma {:induction false} NamesAppend<T>(a: seq<T>, b: seq<T>, nameOf: T -> string)
    ensures Names(a + b, nameOf) == Names(a, nameOf) + Names(b, nameOf)
  {
    if a == [] {
      assert a + b == b;
    } else {
      assert (a + b)[1..] == a[1..] + b;
      NamesAppend(a[1..], b, nameOf);
    }
  }

  /** The first record with the given name. */
  function FirstNamed(ds: seq<DatasetInfo>, name: string): (r: Option<DatasetInfo>)
    ensures r.Some? <==> name in Names(ds, NameOf)
    ensures r.Some? ==> r.value in ds && r.value.name == name
  {
    if ds == [] then None
    else if ds[0].name == name then Some(ds[0])
    else FirstNamed(ds[1..], name)
  }

  /** The feature classes held inside feature datasets, dataset by dataset. */
  function AllSubsets(ds: seq<FeatureDatasetInfo>): (r: seq<DatasetInfo>)
    ensures forall d, c :: d in ds && c in d.subsets ==> c in r
  {
    if ds == [] then [] else ds[0].subsets + AllSubsets(ds[1..])
  }

  /** A `params string[]` name filter: an empty list admits every name. */
  predicate Admitted(name: string, names: seq<string>) {
    |names| == 0 || name in names
  }

  class Workspace {
    /** Standalone feature classes, in enumeration order. */
    var featureClasses: seq<DatasetInfo>
    /** Feature datasets, in enumeration order. */
    var featureDatasets: seq<FeatureDatasetInfo>
    /** Attribute tables, in enumeration order. */
    var tables: seq<DatasetInfo>

    constructor(featureClasses: seq<DatasetInfo>, featureDatasets: seq<FeatureDatasetInfo>,
                tables: seq<DatasetInfo>)
      ensures this.featureClasses == featureClasses
      ensures this.featureDatasets == featureDatasets
      ensures this.tables == tables
    {
      this.featureClasses := featureClasses;
      this.featureDatasets := featureDatasets;
      this.tables := tables;
    }

    /**
     * IFeatureWorkspace.OpenFeatureClass: a standalone class of that name, or
     * else one inside a feature dataset; None where the engine would throw.
     */
    function OpenFeatureClass(name: string): (r: Option<DatasetInfo>)
      reads this
      ensures r.Some? ==> r.value.name == name
      ensures r.Some? <==> name in Names(featureClasses, NameOf) || name in Names(AllSubsets(featureDatasets), NameOf)
    {
      if name in Names(featureClasses, NameOf) then FirstNamed(featureClasses, name)
      else FirstNamed(AllSubsets(featureDatasets), name)
    }

    /** IWorkspace2.NameExists for feature datasets. */
    predicate FeatureDatasetExists(name: string)
      reads this
    {
      name in Names(featureDatasets, DatasetNameOf)
    }

    /** IWorkspace2.NameExists for feature classes, standalone or inside a dataset. */
    predicate FeatureClassExists(name: string)
      reads this
    {
      name in Names(featureClasses, NameOf) || name in Names(AllSubsets(featureDatasets), NameOf)
    }

    /** IWorkspace2.NameExists for tables. */
    predicate TableExists(name: string)
      reads this
    {
      name in Names(tables, NameOf)
    }
  }

  // ---------------------------------------------------------------------------
  // Tables and feature classes as editable objects
  // ---------------------------------------------------------------------------

  class Table {
    var name: string
    var fields: seq<Field>
    /** Row values, one per field, in cursor order. */
    var rows: seq<seq<Value>>

    constructor(name: string, fields: seq<Field>, rows: seq<seq<Value>>)
      ensures this.name == name && this.fields == fields && this.rows == rows
    {
      this.name := name;
      this.fields := fields;
      this.rows := rows;
    }

    /** Every row has one value per field. */
    ghost predicate Valid()
      reads this
    {
      forall r :: r in rows ==> |r| == |fields|
    }
  }

  // ---------------------------------------------------------------------------
  // List<T>.Remove
  // ---------------------------------------------------------------------------

  /** List<T>.Remove: drops the first occurrence of x, if any. */
  function RemoveFirst<T(==)>(s: seq<T>, x: T): (r: seq<T>)
    ensures x in s ==> |r| == |s| - 1
    ensures x !in s ==> r == s
  {
    if s == [] then []
    else if s[0] == x then s[1..]
    else [s[0]] + RemoveFirst(s[1..], x)
  }

  /** Removing x takes exactly one x out of the bag of items, when there is one. */
  lemma {:induction false} RemoveFirstMultiset<T>(s: seq<T>, x: T)
    ensures multiset(RemoveFirst(s, x)) == multiset(s) - multiset{x}
  {
    if s != [] {
      assert s == [s[0]] + s[1..];
      if s[0] != x {
        RemoveFirstMultiset(s[1..], x);
      }
    }
  }

  /** An item other than x in front is kept in front. */
  lemma RemoveFirstCons<T>(a: T, s: seq<T>, x: T)
    requires a != x
    ensures RemoveFirst([a] + s, x) == [a] + RemoveFirst(s, x)
  {
    assert ([a] + s)[1..] == s;
  }

  /** Removing x at or after a known position leaves the prefix alone. */
  lemma {:induction false} RemoveFirstBeyond<T>(p: seq<T>, r: seq<T>, x: T)
    requires x !in p
    ensures RemoveFirst(p + r, x) == p + RemoveFirst(r, x)
  {
    if p == [] {
      assert p + r == r;
    } else {
      var a, p' := p[0], p[1..];
      calc {
        RemoveFirst(p + r, x);
      == { assert p + r == [a] + (p' + r); }
        RemoveFirst([a] + (p' + r), x);
      == { RemoveFirstCons(a, p' + r, x); }
        [a] + RemoveFirst(p' + r, x);
      == { RemoveFirstBeyond(p', r, x); }
        [a] + (p' + RemoveFirst(r, x));
      == { assert p == [a] + p'; }
        p + RemoveFirst(r, x);
      }
    }
  }

  /**
   * Removing the first occurrence of the item at position i (which may be an
   * earlier copy of it) leaves the items after i in place, shifted down by one.
   */
  lemma {:induction false} RemoveFirstAt<T>(s: seq<T>, i: nat)
    requires i < |s|
    ensures |RemoveFirst(s, s[i])| == |s| - 1
    ensures RemoveFirst(s, s[i])[i..] == s[i + 1..]
  {
    if s[0] != s[i] {
      RemoveFirstAt(s[1..], i - 1);
      assert s[1..][i - 1] == s[i];
    }
  }
}
