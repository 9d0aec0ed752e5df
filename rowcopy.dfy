/**
 * The row-copy loop shared by CopyFeatureClass
 * (QArcGISLib/QFeatureClass.cs:1158-1211), CopyTable
 * (QArcGISLib/QTable.cs:433-459) and the list WriteFeature2FeatureClass
 * (QArcGISLib/QFeature.cs:585-637).
 *
 * Each source row is copied into a fresh buffer of the target: a value is
 * copied only from an editable field holding something other than DBNull;
 * a field the target lacks is added when appending is allowed and skipped
 * otherwise; the value is then written at an index. The three copies differ
 * in where that index comes from once a missing field has been added
 * (`IndexAfterAdd`), in whether the shape is assigned separately, and in
 * when the insert cursor is flushed (`FlushRule`).
 *
 * A buffer created before a field was added is modelled as gaining that
 * field, as the table's stored rows do.
 */
module RowCopy {
  import opened Wrappers
  import opened Geodatabase
  import opened QField

  /** After adding a missing field: look its name up in the target, or in the source. */
  datatype IndexAfterAdd = TargetIndex | SourceIndex

  /** The target schema, the buffer being filled, and whether a write has thrown. */
  datatype FillState = FillState(fields: seq<Field>, buffer: seq<Value>, threw: bool)

  function Nulls(n: nat): (r: seq<Value>)
    ensures |r| == n
    ensures forall k :: 0 <= k < n ==> r[k] == DBNull
  {
    seq(n, _ => DBNull)
  }

  /** Rows after n columns were appended, one AddField at a time. */
  function PadRowsBy(rows: seq<seq<Value>>, n: nat): (r: seq<seq<Value>>)
    ensures |r| == |rows|
  {
    if n == 0 then rows else PadRows(PadRowsBy(rows, n - 1))
  }

  lemma PadRowsBySucc(rows: seq<seq<Value>>, n: nat)
    ensures PadRowsBy(rows, n + 1) == PadRows(PadRowsBy(rows, n))
  {
  }

  /** The rows of a table whose schema grew from `before` to `after` by appending. */
  function Widen(rows: seq<seq<Value>>, before: seq<Field>, after: seq<Field>): (r: seq<seq<Value>>)
    requires |before| <= |after|
    ensures |r| == |rows|
  {
    PadRowsBy(rows, |after| - |before|)
  }

  lemma WidenBy(rows: seq<seq<Value>>, before: seq<Field>, after: seq<Field>, n: nat)
    requires |after| == |before| + n
    ensures Widen(rows, before, after) == PadRowsBy(rows, n)
  {
  }

  /** Each padded row is the old row followed by n DBNulls. */
  lemma {:induction false} PadRowsByNulls(rows: seq<seq<Value>>, n: nat)
    ensures forall k :: 0 <= k < |rows| ==> PadRowsBy(rows, n)[k] == rows[k] + Nulls(n)
  {
    if n > 0 {
      PadRowsByNulls(rows, n - 1);
      forall k | 0 <= k < |rows|
        ensures PadRowsBy(rows, n)[k] == rows[k] + Nulls(n)
      {
        assert Nulls(n - 1) + [DBNull] == Nulls(n);
        assert rows[k] + Nulls(n - 1) + [DBNull] == rows[k] + (Nulls(n - 1) + [DBNull]);
      }
    } else {
      assert forall k :: 0 <= k < |rows| ==> rows[k] + Nulls(0) == rows[k];
    }
  }

  /** A value the loop copies: from an editable field, and not DBNull. */
  predicate Copyable(f: Field, v: Value) {
    f.editable && v != DBNull
  }

  predicate WellFormed(src: Feature) {
    |src.values| == |src.fields|
  }

  /** Field names within one schema are distinct. */
  predicate DistinctNames(fields: seq<Field>) {
    forall a, b :: 0 <= a < b < |fields| ==> fields[a].name != fields[b].name
  }

  /** One pass of the field loop, for source field j. */
  function FillStep(src: Feature, j: nat, st: FillState, append: bool, rule: IndexAfterAdd): (r: FillState)
    requires WellFormed(src) && j < |src.fields|
    requires |st.buffer| == |st.fields| && !st.threw
    ensures |r.buffer| == |r.fields|
    ensures |st.fields| <= |r.fields| <= |st.fields| + 1
  {
    var f := src.fields[j];
    var v := src.values[j];
    if !Copyable(f, v) then st
    else
      var index := FindField(st.fields, f.name);
      if index != -1 then FillState(st.fields, st.buffer[index := v], false)
      else if !append then st
      else
        AddFieldOnlyWhenAbsent(st.fields, f.name, f.fieldType, "", true);
        var fields := WithField(st.fields, f.name, f.fieldType, "", true);
        var buffer := st.buffer + [DBNull];
        FindFieldFinds(src.fields, j);
        var added := if rule == TargetIndex then FindField(fields, f.name) else FindField(src.fields, f.name);
        if added < |buffer| then FillState(fields, buffer[added := v], false)
        else FillState(fields, buffer, true)
  }

  /** The state after the field loop has looked at the first k source fields. */
  function Fill(src: Feature, start: FillState, append: bool, rule: IndexAfterAdd, k: nat): (r: FillState)
    requires WellFormed(src) && k <= |src.fields|
    requires |start.buffer| == |start.fields| && !start.threw
    ensures |r.buffer| == |r.fields| && |start.fields| <= |r.fields|
  {
    if k == 0 then start
    else
      var st := Fill(src, start, append, rule, k - 1);
      if st.threw then st
      else FillStep(src, k - 1, st, append, rule)
  }

  /** One step keeps the schema it started from as a prefix. */
  lemma FillStepExtends(src: Feature, j: nat, st: FillState, append: bool, rule: IndexAfterAdd)
    requires WellFormed(src) && j < |src.fields|
    requires |st.buffer| == |st.fields| && !st.threw
    ensures st.fields <= FillStep(src, j, st, append, rule).fields
  {
  }

  /** The field loop only ever appends to the target schema. */
  lemma {:induction false} FillExtends(src: Feature, start: FillState, append: bool, rule: IndexAfterAdd, k: nat)
    requires WellFormed(src) && k <= |src.fields|
    requires |start.buffer| == |start.fields| && !start.threw
    ensures start.fields <= Fill(src, start, append, rule, k).fields
  {
    if k > 0 {
      FillExtends(src, start, append, rule, k - 1);
      var st := Fill(src, start, append, rule, k - 1);
      if !st.threw {
        FillStepExtends(src, k - 1, st, append, rule);
      }
    }
  }

  /** Once a write has thrown, the remaining fields are not looked at. */
  lemma {:induction false} FillStaysThrown(src: Feature, start: FillState, append: bool,
                                           rule: IndexAfterAdd, k1: nat, k2: nat)
    requires WellFormed(src) && k1 <= k2 <= |src.fields|
    requires |start.buffer| == |start.fields| && !start.threw
    requires Fill(src, start, append, rule, k1).threw
    ensures Fill(src, start, append, rule, k2) == Fill(src, start, append, rule, k1)
  {
    if k2 > k1 {
      FillStaysThrown(src, start, append, rule, k1, k2 - 1);
    }
  }

  /** Looking a missing field up in the target after adding it never throws. */
  lemma {:induction false} TargetIndexNeverThrows(src: Feature, start: FillState, append: bool, k: nat)
    requires WellFormed(src) && k <= |src.fields|
    requires |start.buffer| == |start.fields| && !start.threw
    ensures !Fill(src, start, append, TargetIndex, k).threw
  {
    if k > 0 {
      TargetIndexNeverThrows(src, start, append, k - 1);
    }
  }

  /**
   * With the target lookup, every copied value lands in the target column of
   * its own name: a source field that is editable, not DBNull, and either
   * present in the target or appended, can be read back by name.
   */
  lemma TargetIndexCopiesByName(src: Feature, start: FillState, append: bool, k: nat)
    requires WellFormed(src) && k <= |src.fields| && DistinctNames(src.fields)
    requires |start.buffer| == |start.fields| && !start.threw
    ensures var r := Fill(src, start, append, TargetIndex, k);
      forall j :: 0 <= j < k && Copyable(src.fields[j], src.values[j])
                  && (append || FindField(start.fields, src.fields[j].name) != -1) ==>
        FindField(r.fields, src.fields[j].name) != -1
        && r.buffer[FindField(r.fields, src.fields[j].name)] == src.values[j]
  {
    forall j | 0 <= j < k && Copyable(src.fields[j], src.values[j])
               && (append || FindField(start.fields, src.fields[j].name) != -1)
    {
      FieldCopiedByName(src, start, append, k, j);
    }
  }

  /** The buffer holds `v` in the column of the field called `name`. */
  predicate HoldsAt(st: FillState, name: string, v: Value) {
    var i := FindField(st.fields, name);
    0 <= i < |st.buffer| && st.buffer[i] == v
  }

  /** TargetIndexCopiesByName for one source field, by induction on k. */
  lemma {:induction false} FieldCopiedByName(src: Feature, start: FillState, append: bool, k: nat, j: nat)
    requires WellFormed(src) && k <= |src.fields| && DistinctNames(src.fields)
    requires |start.buffer| == |start.fields| && !start.threw
    requires j < k && Copyable(src.fields[j], src.values[j])
    requires append || FindField(start.fields, src.fields[j].name) != -1
    ensures HoldsAt(Fill(src, start, append, TargetIndex, k), src.fields[j].name, src.values[j])
  {
    if j == k - 1 {
      LastFieldCopied(src, start, append, k);
    } else {
      FieldCopiedByName(src, start, append, k - 1, j);
      assert src.fields[j].name != src.fields[k - 1].name;
      FieldStaysCopied(src, start, append, k, j);
    }
  }

  /** Fill one field further: the step function applied to the state so far. */
  lemma FillNextStep(src: Feature, start: FillState, append: bool, rule: IndexAfterAdd, k: nat)
    requires WellFormed(src) && k < |src.fields|
    requires |start.buffer| == |start.fields| && !start.threw
    requires !Fill(src, start, append, rule, k).threw
    ensures Fill(src, start, append, rule, k + 1)
         == FillStep(src, k, Fill(src, start, append, rule, k), append, rule)
  {
  }

  /** The base case: the field just looked at is written at its own column. */
  lemma LastFieldCopied(src: Feature, start: FillState, append: bool, k: nat)
    requires WellFormed(src) && 0 < k <= |src.fields|
    requires |start.buffer| == |start.fields| && !start.threw
    requires Copyable(src.fields[k - 1], src.values[k - 1])
    requires append || FindField(start.fields, src.fields[k - 1].name) != -1
    ensures HoldsAt(Fill(src, start, append, TargetIndex, k), src.fields[k - 1].name, src.values[k - 1])
  {
    TargetIndexNeverThrows(src, start, append, k - 1);
    var st := Fill(src, start, append, TargetIndex, k - 1);
    StillWritable(src, start, append, k - 1, src.fields[k - 1].name);
    var r := FillStep(src, k - 1, st, append, TargetIndex);
    StepWritesOwnColumn(src, k - 1, st, append);
    assert Fill(src, start, append, TargetIndex, k) == r;
  }

  /** A name the loop may write at the start, it may still write after k fields. */
  lemma StillWritable(src: Feature, start: FillState, append: bool, k: nat, name: string)
    requires WellFormed(src) && k <= |src.fields|
    requires |start.buffer| == |start.fields| && !start.threw
    requires append || FindField(start.fields, name) != -1
    ensures append || FindField(Fill(src, start, append, TargetIndex, k).fields, name) != -1
  {
    if FindField(start.fields, name) != -1 {
      StartNamesStay(src, start, append, k, name);
    }
  }

  /** The inductive step: a later source field of another name does not disturb it. */
  lemma FieldStaysCopied(src: Feature, start: FillState, append: bool, k: nat, j: nat)
    requires WellFormed(src) && 0 < k <= |src.fields|
    requires |start.buffer| == |start.fields| && !start.threw
    requires j < k - 1 && src.fields[j].name != src.fields[k - 1].name
    requires HoldsAt(Fill(src, start, append, TargetIndex, k - 1), src.fields[j].name, src.values[j])
    ensures HoldsAt(Fill(src, start, append, TargetIndex, k), src.fields[j].name, src.values[j])
  {
    var st := Fill(src, start, append, TargetIndex, k - 1);
    assert !st.threw by {
      TargetIndexNeverThrows(src, start, append, k - 1);
    }
    var r := FillStep(src, k - 1, st, append, TargetIndex);
    assert HoldsAt(r, src.fields[j].name, src.values[j]) by {
      StepKeepsHolding(src, k - 1, st, append, src.fields[j].name, src.values[j]);
    }
    assert Fill(src, start, append, TargetIndex, k) == r;
  }

  /** A step on another field keeps a value held under a name. */
  lemma StepKeepsHolding(src: Feature, j: nat, st: FillState, append: bool, name: string, v: Value)
    requires WellFormed(src) && j < |src.fields|
    requires |st.buffer| == |st.fields| && !st.threw
    requires name != src.fields[j].name && HoldsAt(st, name, v)
    ensures HoldsAt(FillStep(src, j, st, append, TargetIndex), name, v)
  {
    StepKeepsOtherNames(src, j, st, append, name);
  }

  /**
   * CopyFeatureClass looks a freshly added field up in the source schema.
   * Source fields [A, B] with values ["a", DBNull] into a target holding
   * only B: A is added after B, but "a" is written at A's source index 0,
   * which is B's column in the target.
   */
  lemma SourceIndexMisplaces()
    ensures var a := Field("A", "A", StringField, true, true);
            var b := Field("B", "B", StringField, true, true);
            var src := Feature([a, b], [Text("a"), DBNull]);
            var r := Fill(src, FillState([b], [DBNull], false), true, SourceIndex, 2);
            !r.threw && r.fields[0] == b && r.fields[1].name == "A"
            && r.buffer == [Text("a"), DBNull]
  {
    var a := Field("A", "A", StringField, true, true);
    var b := Field("B", "B", StringField, true, true);
    var src := Feature([a, b], [Text("a"), DBNull]);
    var start := FillState([b], [DBNull], false);
    assert FindField([b], "A") == -1;
    assert FindField([a, b], "A") == 0;
    assert Fill(src, start, true, SourceIndex, 0) == start;
    var st1 := Fill(src, start, true, SourceIndex, 1);
    assert st1 == FillStep(src, 0, start, true, SourceIndex);
    assert Fill(src, start, true, SourceIndex, 2) == FillStep(src, 1, st1, true, SourceIndex) == st1;
    assert st1.buffer == [Text("a"), DBNull];
  }

  /** The same two-field row with the target lookup lands in column A. */
  lemma TargetIndexPlaces()
    ensures var a := Field("A", "A", StringField, true, true);
            var b := Field("B", "B", StringField, true, true);
            var src := Feature([a, b], [Text("a"), DBNull]);
            var r := Fill(src, FillState([b], [DBNull], false), true, TargetIndex, 2);
            !r.threw && r.fields[0] == b && r.fields[1].name == "A"
            && r.buffer == [DBNull, Text("a")]
  {
    var a := Field("A", "A", StringField, true, true);
    var b := Field("B", "B", StringField, true, true);
    var src := Feature([a, b], [Text("a"), DBNull]);
    var start := FillState([b], [DBNull], false);
    assert FindField([b], "A") == -1;
    assert Fill(src, start, true, TargetIndex, 0) == start;
    var st1 := Fill(src, start, true, TargetIndex, 1);
    assert st1 == FillStep(src, 0, start, true, TargetIndex);
    assert Fill(src, start, true, TargetIndex, 2) == FillStep(src, 1, st1, true, TargetIndex) == st1;
    assert FindField(st1.fields, "A") == 1;
    assert st1.buffer == [DBNull, Text("a")];
  }

  /**
   * The source lookup also throws when the source index lies past the end of
   * the target buffer: a lone copyable second field Y into an empty target.
   */
  lemma SourceIndexThrows()
    ensures var x := Field("X", "X", StringField, true, false);
            var y := Field("Y", "Y", StringField, true, true);
            var src := Feature([x, y], [DBNull, Text("y")]);
            Fill(src, FillState([], [], false), true, SourceIndex, 2).threw
  {
    var x := Field("X", "X", StringField, true, false);
    var y := Field("Y", "Y", StringField, true, true);
    var src := Feature([x, y], [DBNull, Text("y")]);
    var start := FillState([], [], false);
    assert Fill(src, start, true, SourceIndex, 1) == start;
    assert FindField([x, y], "Y") == 1;
  }

  /** A name present in the start schema is still found, at the same index. */
  lemma StartNamesStay(src: Feature, start: FillState, append: bool, k: nat, name: string)
    requires WellFormed(src) && k <= |src.fields|
    requires |start.buffer| == |start.fields| && !start.threw
    requires FindField(start.fields, name) != -1
    ensures FindField(Fill(src, start, append, TargetIndex, k).fields, name) == FindField(start.fields, name)
  {
    FillExtends(src, start, append, TargetIndex, k);
    FindFieldPrefix(start.fields, Fill(src, start, append, TargetIndex, k).fields, name);
  }

  /**
   * One step with the target lookup leaves every other name where it was,
   * with the value it had.
   */
  lemma StepKeepsOtherNames(src: Feature, j: nat, st: FillState, append: bool, name: string)
    requires WellFormed(src) && j < |src.fields|
    requires |st.buffer| == |st.fields| && !st.threw
    requires name != src.fields[j].name && FindField(st.fields, name) != -1
    ensures var r := FillStep(src, j, st, append, TargetIndex);
      FindField(r.fields, name) == FindField(st.fields, name)
      && r.buffer[FindField(r.fields, name)] == st.buffer[FindField(st.fields, name)]
  {
    FillStepExtends(src, j, st, append, TargetIndex);
    FindFieldPrefix(st.fields, FillStep(src, j, st, append, TargetIndex).fields, name);
  }

  /**
   * One step with the target lookup, on a copyable field that is present or
   * appended, writes its value at the column of its own name.
   */
  lemma StepWritesOwnColumn(src: Feature, j: nat, st: FillState, append: bool)
    requires WellFormed(src) && j < |src.fields|
    requires |st.buffer| == |st.fields| && !st.threw
    requires Copyable(src.fields[j], src.values[j])
    requires append || FindField(st.fields, src.fields[j].name) != -1
    ensures HoldsAt(FillStep(src, j, st, append, TargetIndex), src.fields[j].name, src.values[j])
  {
  }

  /**
   * One pass of the field loop: copies source field j into the buffer,
   * adding the field to the target table first when it is missing and
   * appending is allowed.
   */
  method FillField(src: Feature, j: nat, tar: Table, buffer0: seq<Value>, append: bool, rule: IndexAfterAdd)
    returns (buffer: seq<Value>, threw: bool)
    requires WellFormed(src) && j < |src.fields|
    requires tar.Valid() && |buffer0| == |tar.fields|
    modifies tar
    ensures tar.Valid() && tar.name == old(tar.name)
    ensures FillState(tar.fields, buffer, threw)
         == FillStep(src, j, FillState(old(tar.fields), buffer0, false), append, rule)
    ensures |tar.fields| == |old(tar.fields)| ==> tar.rows == old(tar.rows)
    ensures |tar.fields| != |old(tar.fields)| ==>
              |tar.fields| == |old(tar.fields)| + 1 && tar.rows == PadRows(old(tar.rows))
  {
    buffer, threw := buffer0, false;
    var fieldSrc := src.fields[j];
    var indexTar := FindField(tar.fields, fieldSrc.name);
    if fieldSrc.editable && src.values[j] != DBNull {
      if indexTar == -1 && append {
        var _, _ := AddField(tar, "", fieldSrc.name, fieldSrc.fieldType, "", true, "");
        buffer := buffer + [DBNull];
        FindFieldFinds(src.fields, j);
        indexTar := if rule == TargetIndex then FindField(tar.fields, fieldSrc.name)
                    else FindField(src.fields, fieldSrc.name);
        if indexTar >= |buffer| {
          // the write throws
          threw := true;
        } else {
          buffer := buffer[indexTar := src.values[j]];
        }
      } else if indexTar != -1 {
        buffer := buffer[indexTar := src.values[j]];
      }
    }
  }

  /**
   * The field loop of one row: fills a buffer for the target, adding missing
   * fields to the target table on the way.
   */
  method FillBuffer(src: Feature, tar: Table, append: bool, rule: IndexAfterAdd)
    returns (buffer: seq<Value>, threw: bool)
    requires WellFormed(src) && tar.Valid()
    modifies tar
    ensures tar.Valid() && tar.name == old(tar.name)
    ensures FillState(tar.fields, buffer, threw)
         == Fill(src, FillState(old(tar.fields), Nulls(|old(tar.fields)|), false), append, rule, |src.fields|)
    ensures |old(tar.fields)| <= |tar.fields| && tar.rows == Widen(old(tar.rows), old(tar.fields), tar.fields)
  {
    ghost var start := FillState(tar.fields, Nulls(|tar.fields|), false);
    ghost var rows0 := tar.rows;
    ghost var added: nat := 0;
    buffer, threw := Nulls(|tar.fields|), false;
    var n := |src.fields|;
    var j := 0;
    while j < n && !threw
      invariant 0 <= j <= n
      invariant tar.Valid() && tar.name == old(tar.name)
      invariant FillState(tar.fields, buffer, threw) == Fill(src, start, append, rule, j)
      invariant |tar.fields| == |start.fields| + added && tar.rows == PadRowsBy(rows0, added)
    {
      var next := j + 1;
      buffer, threw, added := FillNext(src, j, next, tar, buffer, append, rule, start, rows0, added);
      j := next;
    }
    if threw {
      FillStaysThrown(src, start, append, rule, j, n);
    }
    WidenBy(rows0, start.fields, tar.fields, added);
  }

  /** One iteration of FillBuffer's loop, stated against Fill and the rows the table started with. */
  method FillNext(src: Feature, j: nat, next: nat, tar: Table, buffer0: seq<Value>, append: bool,
                  rule: IndexAfterAdd, ghost start: FillState, ghost rows0: seq<seq<Value>>, ghost added0: nat)
    returns (buffer: seq<Value>, threw: bool, ghost added: nat)
    requires WellFormed(src) && j < |src.fields| && next == j + 1 && tar.Valid()
    requires |start.buffer| == |start.fields| && !start.threw
    requires FillState(tar.fields, buffer0, false) == Fill(src, start, append, rule, j)
    requires |tar.fields| == |start.fields| + added0 && tar.rows == PadRowsBy(rows0, added0)
    modifies tar
    ensures tar.Valid() && tar.name == old(tar.name)
    ensures FillState(tar.fields, buffer, threw) == Fill(src, start, append, rule, next)
    ensures |tar.fields| == |start.fields| + added && tar.rows == PadRowsBy(rows0, added)
  {
    FillNextStep(src, start, append, rule, j);
    buffer, threw := FillField(src, j, tar, buffer0, append, rule);
    if |tar.fields| == |old(tar.fields)| {
      added := added0;
    } else {
      PadRowsBySucc(rows0, added0);
      added := added0 + 1;
    }
  }

  // ---------------------------------------------------------------------------
  // The row loop
  // ---------------------------------------------------------------------------

  /** When the insert cursor is flushed inside the loop, given the running count. */
  datatype FlushRule =
    | AfterEveryThousandth   // `lCount % 1000 == 0`, the list WriteFeature2FeatureClass
    | BeforeEveryThousandth  // `(lCount + 1) % 1000 == 0`, CopyFeatureClass

  const BATCH := 1000

  predicate FlushesInLoop(rule: FlushRule, count: nat) {
    match rule
    case AfterEveryThousandth => count % BATCH == 0
    case BeforeEveryThousandth => (count + 1) % BATCH == 0
  }

  /** The counts after whose insert the loop flushes, for the first n inserts. */
  function LoopFlushes(rule: FlushRule, n: nat): seq<nat> {
    if n == 0 then [] else LoopFlushes(rule, n - 1) + (if FlushesInLoop(rule, n) then [n] else [])
  }

  /** Every in-loop flush follows an insert between the first and the n-th that the rule accepts. */
  lemma {:induction false} LoopFlushesAccepted(rule: FlushRule, n: nat)
    ensures forall p :: p in LoopFlushes(rule, n) ==> 1 <= p <= n && FlushesInLoop(rule, p)
  {
    if n > 0 {
      LoopFlushesAccepted(rule, n - 1);
    }
  }

  /**
   * Every flush of a completed loop over n rows: the in-loop ones, then one
   * more after the loop when n is not a multiple of 1000 and a cursor was
   * opened (at least one row).
   */
  function FlushPoints(rule: FlushRule, n: nat): seq<nat> {
    LoopFlushes(rule, n) + (if n % BATCH != 0 && n > 0 then [n] else [])
  }

  /** Every flush of a completed loop follows an insert between the first and the last. */
  lemma FlushPointsWithinLoop(rule: FlushRule, n: nat)
    ensures forall p :: p in FlushPoints(rule, n) ==> 1 <= p <= n
  {
    LoopFlushesAccepted(rule, n);
  }

  /** With the after-insert test, a flush follows every 1000th insert and nothing else. */
  lemma {:induction false} AfterEveryThousandthCount(n: nat)
    ensures |LoopFlushes(AfterEveryThousandth, n)| == n / BATCH
    ensures forall p :: p in LoopFlushes(AfterEveryThousandth, n) <==> 1 <= p <= n && p % BATCH == 0
  {
    if n > 0 {
      AfterEveryThousandthCount(n - 1);
      assert n / BATCH == (n - 1) / BATCH + (if n % BATCH == 0 then 1 else 0);
    }
  }

  /** With the after-insert test, the last insert of a non-empty loop is always flushed. */
  lemma AfterEveryThousandthFlushesLast(n: nat)
    requires n > 0
    ensures |FlushPoints(AfterEveryThousandth, n)| > 0
    ensures FlushPoints(AfterEveryThousandth, n)[|FlushPoints(AfterEveryThousandth, n)| - 1] == n
  {
  }

  /**
   * With CopyFeatureClass's test, when the row count is a positive multiple
   * of 1000 no flush comes at or after the last insert: the in-loop test
   * fires one insert early and the end-of-loop test is skipped.
   */
  lemma BeforeEveryThousandthMissesLast(n: nat)
    requires n > 0 && n % BATCH == 0
    ensures forall p :: p in FlushPoints(BeforeEveryThousandth, n) ==> p < n
  {
    assert !FlushesInLoop(BeforeEveryThousandth, n);
    LoopFlushesAccepted(BeforeEveryThousandth, n - 1);
    assert FlushPoints(BeforeEveryThousandth, n) == LoopFlushes(BeforeEveryThousandth, n - 1);
  }

  /** The smallest case: 1000 rows are flushed once, after the 999th. */
  lemma BeforeEveryThousandthAtOneThousand()
    ensures 999 in FlushPoints(BeforeEveryThousandth, 1000)
    ensures 1000 !in FlushPoints(BeforeEveryThousandth, 1000)
  {
    assert FlushesInLoop(BeforeEveryThousandth, 999);
    assert LoopFlushes(BeforeEveryThousandth, 999) == LoopFlushes(BeforeEveryThousandth, 998) + [999];
    BeforeEveryThousandthMissesLast(1000);
  }

  /** The target table between rows: its schema, its rows, and whether a write has thrown. */
  datatype CopyState = CopyState(fields: seq<Field>, rows: seq<seq<Value>>, threw: bool)

  /**
   * The separate shape assignment of WriteFeature2FeatureClass: a feature
   * with a shape has it copied into the target's shape field; with no shape
   * field the assignment throws (None).
   */
  function AssignShape(f: Feature, fields: seq<Field>, buffer: seq<Value>): (r: Option<seq<Value>>)
    requires |buffer| == |fields|
    ensures ShapeOf(f).None? ==> r == Some(buffer)
    ensures ShapeOf(f).Some? && r.Some? ==>
              ShapeFieldIndex(fields) != -1 && |r.value| == |buffer|
              && r.value[ShapeFieldIndex(fields)] == Geom(ShapeOf(f).value)
    ensures r.None? <==> ShapeOf(f).Some? && ShapeFieldIndex(fields) == -1
  {
    match ShapeOf(f)
    case None => Some(buffer)
    case Some(shape) =>
      var i := ShapeFieldIndex(fields);
      if i == -1 then None else Some(buffer[i := Geom(shape)])
  }

  /** One row of the loop: fill a fresh buffer, maybe assign the shape, insert it. */
  function CopyStep(f: Feature, st: CopyState, append: bool, rule: IndexAfterAdd, withShape: bool): (r: CopyState)
    requires WellFormed(f) && !st.threw
  {
    var filled := Fill(f, FillState(st.fields, Nulls(|st.fields|), false), append, rule, |f.fields|);
    var rows := Widen(st.rows, st.fields, filled.fields);
    if filled.threw then CopyState(filled.fields, rows, true)
    else if !withShape then CopyState(filled.fields, rows + [filled.buffer], false)
    else match AssignShape(f, filled.fields, filled.buffer)
      case None => CopyState(filled.fields, rows, true)
      case Some(buffer) => CopyState(filled.fields, rows + [buffer], false)
  }

  predicate AllWellFormed(features: seq<Feature>) {
    forall i :: 0 <= i < |features| ==> WellFormed(features[i])
  }

  /** The target after the loop has handled the first k features. */
  function Copy(features: seq<Feature>, start: CopyState, append: bool, rule: IndexAfterAdd,
                withShape: bool, k: nat): (r: CopyState)
    requires AllWellFormed(features) && k <= |features| && !start.threw
  {
    if k == 0 then start
    else
      var st := Copy(features, start, append, rule, withShape, k - 1);
      if st.threw then st else CopyStep(features[k - 1], st, append, rule, withShape)
  }

  /** Copy one step further. */
  lemma CopyNextStep(features: seq<Feature>, start: CopyState, append: bool, rule: IndexAfterAdd,
                     withShape: bool, k: nat)
    requires AllWellFormed(features) && k < |features| && !start.threw
    requires !Copy(features, start, append, rule, withShape, k).threw
    ensures Copy(features, start, append, rule, withShape, k + 1)
         == CopyStep(features[k], Copy(features, start, append, rule, withShape, k), append, rule, withShape)
  {
  }

  /** Once a row has thrown, later rows are not looked at. */
  lemma {:induction false} CopyStaysThrown(features: seq<Feature>, start: CopyState, append: bool,
                                           rule: IndexAfterAdd, withShape: bool, k1: nat, k2: nat)
    requires AllWellFormed(features) && k1 <= k2 <= |features| && !start.threw
    requires Copy(features, start, append, rule, withShape, k1).threw
    ensures Copy(features, start, append, rule, withShape, k2) == Copy(features, start, append, rule, withShape, k1)
  {
    if k2 > k1 {
      CopyStaysThrown(features, start, append, rule, withShape, k1, k2 - 1);
    }
  }

  /** The loop only ever appends fields to the target schema. */
  lemma {:induction false} CopyWidens(features: seq<Feature>, start: CopyState, append: bool,
                                      rule: IndexAfterAdd, withShape: bool, k: nat)
    requires AllWellFormed(features) && k <= |features| && !start.threw
    ensures |start.fields| <= |Copy(features, start, append, rule, withShape, k).fields|
  {
    if k > 0 {
      CopyWidens(features, start, append, rule, withShape, k - 1);
    }
  }

  /** The rows of a table, each read back as a feature carrying the table's fields. */
  function Features(fields: seq<Field>, rows: seq<seq<Value>>): (fs: seq<Feature>)
    requires forall r :: r in rows ==> |r| == |fields|
    ensures |fs| == |rows| && AllWellFormed(fs)
    ensures forall k :: 0 <= k < |rows| ==> fs[k] == Feature(fields, rows[k])
  {
    seq(|rows|, k requires 0 <= k < |rows| => Feature(fields, rows[k]))
  }

  /** Without the shape assignment, the target lookup never throws: every row is inserted. */
  lemma {:induction false} TargetIndexInsertsEveryRow(features: seq<Feature>, start: CopyState,
                                                      append: bool, k: nat)
    requires AllWellFormed(features) && k <= |features| && !start.threw
    ensures !Copy(features, start, append, TargetIndex, false, k).threw
    ensures |Copy(features, start, append, TargetIndex, false, k).rows| == |start.rows| + k
  {
    if k > 0 {
      TargetIndexInsertsEveryRow(features, start, append, k - 1);
      var st := Copy(features, start, append, TargetIndex, false, k - 1);
      var f := features[k - 1];
      TargetIndexNeverThrows(f, FillState(st.fields, Nulls(|st.fields|), false), append, |f.fields|);
    }
  }

  /** CopyStep for one row, on the table object. */
  method CopyOne(f: Feature, tar: Table, append: bool, rule: IndexAfterAdd, withShape: bool)
    returns (threw: bool)
    requires WellFormed(f) && tar.Valid()
    modifies tar
    ensures tar.name == old(tar.name)
    ensures CopyState(tar.fields, tar.rows, threw)
         == CopyStep(f, CopyState(old(tar.fields), old(tar.rows), false), append, rule, withShape)
    ensures !threw ==> tar.Valid()
  {
    var buffer;
    buffer, threw := FillBuffer(f, tar, append, rule);
    if threw {
      return;
    }
    if withShape {
      var shaped := AssignShape(f, tar.fields, buffer);
      if shaped.None? {
        return true;
      }
      buffer := shaped.value;
    }
    tar.rows := tar.rows + [buffer];
  }

  lemma LoopFlushesNext(rule: FlushRule, i: nat, next: nat)
    requires next == i + 1
    ensures LoopFlushes(rule, next) == LoopFlushes(rule, i) + (if FlushesInLoop(rule, next) then [next] else [])
  {
  }

  /** The in-loop flush test after the insert numbered `next`. */
  method FlushInLoop(rule: FlushRule, flushes0: seq<nat>, i: nat, next: nat) returns (flushes: seq<nat>)
    requires next == i + 1 && flushes0 == LoopFlushes(rule, i)
    ensures flushes == LoopFlushes(rule, next)
  {
    LoopFlushesNext(rule, i, next);
    flushes := flushes0;
    if FlushesInLoop(rule, next) {
      flushes := flushes + [next];
    }
  }

  /** The flush after a completed loop of `count` inserts. */
  method FlushAfterLoop(rule: FlushRule, flushes0: seq<nat>, count: nat) returns (flushes: seq<nat>)
    requires flushes0 == LoopFlushes(rule, count)
    ensures flushes == FlushPoints(rule, count)
  {
    flushes := flushes0;
    if count % BATCH != 0 && count > 0 {
      flushes := flushes + [count];
    }
  }

  /** One iteration of CopyRows's loop, stated against Copy. */
  method CopyNextRow(features: seq<Feature>, i: nat, next: nat, tar: Table, append: bool,
                     rule: IndexAfterAdd, withShape: bool, ghost start: CopyState)
    returns (threw: bool)
    requires AllWellFormed(features) && i < |features| && next == i + 1 && !start.threw
    requires tar.Valid() && CopyState(tar.fields, tar.rows, false) == Copy(features, start, append, rule, withShape, i)
    modifies tar
    ensures tar.name == old(tar.name)
    ensures CopyState(tar.fields, tar.rows, threw) == Copy(features, start, append, rule, withShape, next)
    ensures !threw ==> tar.Valid()
  {
    CopyNextStep(features, start, append, rule, withShape, i);
    threw := CopyOne(features[i], tar, append, rule, withShape);
  }

  /**
   * The row loop: each feature is counted, filled into a fresh buffer and
   * inserted; the cursor is flushed as the rule says, and once more after a
   * completed loop whose count is not a multiple of 1000. A throwing write
   * ends the loop (the caller's catch takes over).
   */
  method CopyRows(features: seq<Feature>, tar: Table, append: bool, rule: IndexAfterAdd,
                  withShape: bool, flush: FlushRule)
    returns (threw: bool, count: nat, flushes: seq<nat>)
    requires AllWellFormed(features) && tar.Valid()
    modifies tar
    ensures tar.name == old(tar.name)
    ensures CopyState(tar.fields, tar.rows, threw)
         == Copy(features, CopyState(old(tar.fields), old(tar.rows), false), append, rule, withShape, |features|)
    ensures !threw ==> tar.Valid() && count == |features| && flushes == FlushPoints(flush, count)
    ensures threw ==> 1 <= count <= |features| && flushes == LoopFlushes(flush, count - 1)
  {
    ghost var start := CopyState(tar.fields, tar.rows, false);
    threw, count, flushes := false, 0, [];
    var i := 0;
    while i < |features|
      invariant 0 <= i <= |features| && count == i
      invariant tar.Valid() && CopyState(tar.fields, tar.rows, false) == Copy(features, start, append, rule, withShape, i)
      invariant tar.name == old(tar.name)
      invariant flushes == LoopFlushes(flush, i)
    {
      var next := i + 1;
      count := next;
      threw := CopyNextRow(features, i, next, tar, append, rule, withShape, start);
      if threw {
        CopyStaysThrown(features, start, append, rule, withShape, next, |features|);
        return;
      }
      flushes := FlushInLoop(flush, flushes, i, next);
      i := next;
    }
    flushes := FlushAfterLoop(flush, flushes, count);
  }
}
