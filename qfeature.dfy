/**
 * The decision logic of QArcGISLib/QFeature.cs: the spatial SearchFeature
 * loop, the list FindSameFeature, GetFeatureNumber, and the guards, field
 * rule and flush rule of the list WriteFeature2FeatureClass.
 */
module QFeature {
  import opened Wrappers
  import opened Geodatabase
  import opened QCompare
  import opened Search
  import opened RowCopy
  import opened QFeatureClass

  // ---------------------------------------------------------------------------
  // SearchFeature(feature class, envelope, relation)
  // ---------------------------------------------------------------------------

  /**
   * The spatial SearchFeature: the cursor's hits (decided by the engine) are
   * counted until the cursor runs out, and the feature variable, which is
   * null by then, is returned. Whatever the hits, the result is null.
   */
  method SearchFeature(hits: seq<Feature>) returns (feature: Option<Feature>)
    ensures feature.None?
  {
    var n := 0;
    feature := if |hits| > 0 then Some(hits[0]) else None;
    while feature.Some?
      invariant 0 <= n <= |hits|
      invariant feature == if n < |hits| then Some(hits[n]) else None
      decreases |hits| - n
    {
      n := n + 1;
      feature := if n < |hits| then Some(hits[n]) else None;
    }
  }

  // ---------------------------------------------------------------------------
  // FindSameFeature(list, list)
  // ---------------------------------------------------------------------------

  function FindSameFeatureErrorMessage(message: string): string {
    "查找要素类中相同的要素集合失败：" + message
  }

  /** The inner test of FindSameFeature: the index overload of IsFeatureEqual on a non-null source. */
  function FeatureComparison(rel: Relations, idxSrc: seq<int>, idxTar: seq<int>): Comparison {
    (s: Feature, t: Option<Feature>) => IsFeatureEqualAt(rel, Some(s), t, idxSrc, idxTar)
  }

  function FirstFeatureFields(features: seq<Option<Feature>>): seq<Field>
    requires |features| > 0
  {
    if features[0].Some? then features[0].value.fields else []
  }

  /** Every compared name is in both first features or in neither. */
  predicate NamesResolve(srcs: seq<Option<Feature>>, tars: seq<Option<Feature>>, fields: seq<string>)
    requires |srcs| > 0 && |tars| > 0
  {
    forall k :: 0 <= k < |fields| ==>
      (FindField(FirstFeatureFields(srcs), fields[k]) == -1 <==> FindField(FirstFeatureFields(tars), fields[k]) == -1)
  }

  /** The nested loops of FindSameFeature with the columns resolved from the first features. */
  function FeatureWindow(rel: Relations, srcs: seq<Option<Feature>>, tars: seq<Option<Feature>>,
                         found0: seq<Option<Feature>>, fields: seq<string>): Window
    requires |srcs| > 0 && |tars| > 0
  {
    var cmp := FeatureComparison(rel, Resolved(FirstFeatureFields(srcs), fields), Resolved(FirstFeatureFields(tars), fields));
    WindowMatches(cmp, srcs, tars, Window(found0, |tars|, false, false), |srcs|)
  }

  /**
   * The list FindSameFeature. (empty, empty) and (non-empty, empty) give
   * true, (empty, non-empty) false. Otherwise each compared name is looked
   * up in the first source and the first target (a null one throws, and a
   * name found in only one of them gives false); then the sources are taken
   * from the last down, and each non-null one searches the target window
   * from its end down: the first equal target is appended to the caller's
   * list and the window shrinks by one at its end. The result is true
   * exactly when some target was recorded and nothing threw; a throw keeps
   * what was recorded before it and replaces the caller's message, which is
   * otherwise handed back unchanged.
   */
  method FindSameFeature(rel: Relations, srcs: seq<Option<Feature>>, tars: seq<Option<Feature>>,
                         found0: seq<Option<Feature>>, error0: string, fields: seq<string>, exceptionMessage: string)
    returns (ok: bool, found: seq<Option<Feature>>, error: string)
    ensures |srcs| == 0 || |tars| == 0 ==> ok == (|srcs| == 0 ==> |tars| == 0) && found == found0 && error == error0
    ensures |srcs| > 0 && |tars| > 0 ==>
      if |fields| > 0 && (srcs[0].None? || tars[0].None?) then
        !ok && found == found0 && error == FindSameFeatureErrorMessage(exceptionMessage)
      else if !NamesResolve(srcs, tars, fields) then
        !ok && found == found0 && error == error0
      else
        var r := FeatureWindow(rel, srcs, tars, found0, fields);
        && found == r.found
        && ok == (r.isExist && !r.threw)
        && error == (if r.threw then FindSameFeatureErrorMessage(exceptionMessage) else error0)
    ensures found0 <= found && |found| - |found0| <= |srcs| && |found| - |found0| <= |tars|
    ensures ok && |srcs| > 0 && |tars| > 0 ==> |found| > |found0|
    ensures |found| > |found0| ==>
      var idxSrc, idxTar := Resolved(FirstFeatureFields(srcs), fields), Resolved(FirstFeatureFields(tars), fields);
      && (forall m :: |found0| <= m < |found| ==> found[m] in tars[..|tars| - (m - |found0|)])
      && (forall m :: |found0| <= m < |found| ==>
            exists i :: 0 <= i < |srcs| && srcs[i].Some? &&
              IsFeatureEqualAt(rel, srcs[i], found[m], idxSrc, idxTar) == Some(true))
  {
    if |srcs| == 0 || |tars| == 0 {
      return |srcs| == 0 ==> |tars| == 0, found0, error0;
    }
    if |fields| > 0 && (srcs[0].None? || tars[0].None?) {
      return false, found0, FindSameFeatureErrorMessage(exceptionMessage);
    }
    var srcFields := if srcs[0].Some? then srcs[0].value.fields else [];
    var tarFields := if tars[0].Some? then tars[0].value.fields else [];
    var resolved, idxSrc, idxTar := ResolveIndices(fields, srcFields, tarFields);
    if !resolved {
      return false, found0, error0;
    }
    var cmp := FeatureComparison(rel, idxSrc, idxTar);
    var isExist, threw;
    found, isExist, threw := MatchWindow(cmp, srcs, tars, found0);
    WindowMatchesKept(cmp, srcs, tars, found0, |srcs|);
    FoundMatchesSource(cmp, srcs, tars, found0, found);
    if threw {
      return false, found, FindSameFeatureErrorMessage(exceptionMessage);
    }
    return isExist, found, error0;
  }

  /**
   * FindSameFeature misses nothing: when the loops neither threw nor
   * recorded a target, no non-null source equals any target; so a source
   * equal to some target gives true unless a comparison threw.
   */
  lemma FindSameFeatureComplete(rel: Relations, srcs: seq<Option<Feature>>, tars: seq<Option<Feature>>,
                                found0: seq<Option<Feature>>, fields: seq<string>, i: nat, j: nat)
    requires i < |srcs| && j < |tars| && srcs[i].Some?
    requires IsFeatureEqualAt(rel, srcs[i], tars[j], Resolved(FirstFeatureFields(srcs), fields),
                              Resolved(FirstFeatureFields(tars), fields)) == Some(true)
    ensures var r := FeatureWindow(rel, srcs, tars, found0, fields);
      r.threw || (r.isExist && |r.found| > |found0|)
  {
    var cmp := FeatureComparison(rel, Resolved(FirstFeatureFields(srcs), fields), Resolved(FirstFeatureFields(tars), fields));
    WindowMatchesComplete(cmp, srcs, tars, found0, |srcs|);
    WindowMatchesKept(cmp, srcs, tars, found0, |srcs|);
    assert cmp(srcs[i].value, tars[j]) == Some(true);
  }

  /** The window invariant, read entry by entry of the caller's list. */
  lemma FoundMatchesSource(cmp: Comparison, srcs: seq<Option<Feature>>, tars: seq<Option<Feature>>,
                           found0: seq<Option<Feature>>, found: seq<Option<Feature>>)
    requires |found0| <= |found| <= |found0| + |tars| && found[..|found0|] == found0
    requires RecordedFrom(cmp, srcs, tars, found[|found0|..])
    ensures found0 <= found
    ensures forall m :: |found0| <= m < |found| ==>
      found[m] in tars[..|tars| - (m - |found0|)] && MatchesSomeSource(cmp, srcs, found[m])
  {
    var added := found[|found0|..];
    forall m | |found0| <= m < |found|
      ensures found[m] in tars[..|tars| - (m - |found0|)] && MatchesSomeSource(cmp, srcs, found[m])
    {
      assert added[m - |found0|] == found[m];
    }
  }

  // ---------------------------------------------------------------------------
  // GetFeatureNumber
  // ---------------------------------------------------------------------------

  /** GetFeatureNumber: 0 for a null feature class, else its feature count. */
  function GetFeatureNumber(fc: Table?): (n: nat)
    reads fc
  {
    if fc == null then 0 else |fc.rows|
  }

  /** The count agrees with the emptiness test whenever that test's cursor does not throw. */
  lemma GetFeatureNumberAgreesWithNullTest(fc: Table?)
    ensures IsFeatrueClassNull(fc, false) == 0 <==> GetFeatureNumber(fc) == 0
    ensures IsFeatrueClassNull(fc, false) == 1 <==> GetFeatureNumber(fc) > 0
  {
  }

  // ---------------------------------------------------------------------------
  // WriteFeature2FeatureClass(feature class, list)
  // ---------------------------------------------------------------------------

  const MSG_NO_FEATURES := "待写入的要素为空！"
  const MSG_NO_FEATURE_CLASS := "待写入的要素类为空！"

  /**
   * The list WriteFeature2FeatureClass: rejects an empty list, then a null
   * feature class, with distinct messages and before editing starts. Each
   * feature then becomes a new target feature holding its editable,
   * non-null values in the columns of the same name (a missing column is
   * added when `append` holds, the value skipped otherwise) and its shape;
   * the cursor is flushed after every 1000th insert and once at the end when
   * the count is not a multiple of 1000. A throwing write ends the edit
   * session without saving: the rows go back to what they were, the fields
   * added stay, and the error is the exception's message. On success the
   * caller's error string is left as it was.
   */
  method WriteFeature2FeatureClass(fc: Table?, features: seq<Feature>, append: bool, error0: string,
                                   exceptionMessage: string)
    returns (ok: bool, error: string, flushes: seq<nat>)
    requires AllWellFormed(features)
    requires fc != null ==> fc.Valid()
    modifies fc
    ensures |features| == 0 ==> !ok && error == MSG_NO_FEATURES
    ensures |features| > 0 && fc == null ==> !ok && error == MSG_NO_FEATURE_CLASS
    ensures fc != null && |features| == 0 ==> fc.fields == old(fc.fields) && fc.rows == old(fc.rows)
    ensures fc != null && |features| > 0 ==>
      var st := Copy(features, CopyState(old(fc.fields), old(fc.rows), false), append, TargetIndex, true, |features|);
      && fc.fields == st.fields
      && |old(fc.fields)| <= |st.fields|
      && (ok <==> !st.threw)
      && (ok ==> fc.rows == st.rows && error == error0 && flushes == FlushPoints(AfterEveryThousandth, |features|))
      && (!ok ==> fc.rows == Widen(old(fc.rows), old(fc.fields), st.fields)
                  && error == exceptionMessage)
  {
    flushes := [];
    if |features| == 0 {
      return false, MSG_NO_FEATURES, flushes;
    }
    if fc == null {
      return false, MSG_NO_FEATURE_CLASS, flushes;
    }
    var fields0, rows0 := fc.fields, fc.rows;
    var threw, count;
    threw, count, flushes := CopyRows(features, fc, append, TargetIndex, true, AfterEveryThousandth);
    CopyWidens(features, CopyState(fields0, rows0, false), append, TargetIndex, true, |features|);
    if threw {
      fc.rows := Widen(rows0, fields0, fc.fields);
      return false, exceptionMessage, flushes;
    }
    return true, error0, flushes;
  }

  /** A geometry field found in a prefix of a schema stays the first one in the whole. */
  lemma {:induction false} ShapeFieldIndexPrefix(p: seq<Field>, s: seq<Field>)
    requires p <= s && ShapeFieldIndex(p) != -1
    ensures ShapeFieldIndex(s) == ShapeFieldIndex(p)
  {
    if p[0].fieldType != GeometryField {
      assert p[1..] <= s[1..];
      ShapeFieldIndexPrefix(p[1..], s[1..]);
    }
  }

  /** One feature into a schema with a geometry field is inserted, and the schema only grows. */
  lemma ShapedStep(f: Feature, st: CopyState, append: bool)
    requires WellFormed(f) && !st.threw && ShapeFieldIndex(st.fields) != -1
    ensures var r := CopyStep(f, st, append, TargetIndex, true);
      !r.threw && |r.rows| == |st.rows| + 1 && ShapeFieldIndex(r.fields) == ShapeFieldIndex(st.fields)
  {
    var fill0 := FillState(st.fields, Nulls(|st.fields|), false);
    TargetIndexNeverThrows(f, fill0, append, |f.fields|);
    FillExtends(f, fill0, append, TargetIndex, |f.fields|);
    ShapeFieldIndexPrefix(st.fields, Fill(f, fill0, append, TargetIndex, |f.fields|).fields);
  }

  /**
   * Into a feature class that has a geometry field, every feature is
   * inserted: fields are only ever appended, so the geometry field stays
   * where it was and the shape assignment cannot throw.
   */
  lemma {:induction false} ShapedTargetInsertsEveryFeature(features: seq<Feature>, start: CopyState,
                                                           append: bool, k: nat)
    requires AllWellFormed(features) && k <= |features| && !start.threw
    requires ShapeFieldIndex(start.fields) != -1
    ensures var r := Copy(features, start, append, TargetIndex, true, k);
      !r.threw && |r.rows| == |start.rows| + k && ShapeFieldIndex(r.fields) == ShapeFieldIndex(start.fields)
  {
    if k > 0 {
      ShapedTargetInsertsEveryFeature(features, start, append, k - 1);
      var st := Copy(features, start, append, TargetIndex, true, k - 1);
      ShapedStep(features[k - 1], st, append);
    }
  }
}
