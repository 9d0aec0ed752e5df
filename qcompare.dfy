/**
 * Geometry and feature comparison (QArcGISLib/QCompare.cs).
 *
 * The engine's relational operators are not modelled; they are the fields
 * of a `Relations` value the caller supplies, so every statement here holds
 * whatever the engine decides. A result of type `Option<bool>` is `None`
 * where the source throws: a null feature next to a non-null one, a field
 * index out of range (a name FindField does not find is index -1), or a
 * null geometry handed to a relational operator.
 */
module QCompare {
  import opened Wrappers
  import opened Geodatabase
  import opened QEnum

  /** IRelationalOperator on shapes, as the engine decides it. */
  datatype Relations = Relations(
    contains: (Shape, Shape) -> bool,
    equals: (Shape, Shape) -> bool,
    crosses: (Shape, Shape) -> bool,
    disjoint: (Shape, Shape) -> bool,
    overlaps: (Shape, Shape) -> bool,
    touches: (Shape, Shape) -> bool,
    within: (Shape, Shape) -> bool,
    relation: (Shape, Shape, string) -> bool)

  /** The relation string CompareGeometry hands to IRelationalOperator.Relation. */
  const RELATE_PATTERN := "RELATE(G1, G2, 'T********')"

  /**
   * CompareGeometry: one relational call of A on B per method, except that
   * Within holds when either shape lies within the other.
   */
  function CompareGeometry(rel: Relations, a: Shape, b: Shape, how: EGeoCompareMethod): (r: bool)
    ensures how == Contains ==> r == rel.contains(a, b)
    ensures how == Equals ==> r == rel.equals(a, b)
    ensures how == Crosses ==> r == rel.crosses(a, b)
    ensures how == Disjoint ==> r == rel.disjoint(a, b)
    ensures how == Overlaps ==> r == rel.overlaps(a, b)
    ensures how == Relation ==> r == rel.relation(a, b, RELATE_PATTERN)
    ensures how == Touches ==> r == rel.touches(a, b)
    ensures how == Within ==> r == (rel.within(a, b) || rel.within(b, a))
  {
    match how
    case Contains => rel.contains(a, b)
    case Equals => rel.equals(a, b)
    case Crosses => rel.crosses(a, b)
    case Disjoint => rel.disjoint(a, b)
    case Overlaps => rel.overlaps(a, b)
    case Relation => rel.relation(a, b, RELATE_PATTERN)
    case Touches => rel.touches(a, b)
    case Within => rel.within(a, b) || rel.within(b, a)
  }

  /**
   * Within is the only symmetric method whatever the engine decides: the
   * order of the two shapes never matters to it.
   */
  lemma WithinIsSymmetric(rel: Relations, a: Shape, b: Shape)
    ensures CompareGeometry(rel, a, b, Within) == CompareGeometry(rel, b, a, Within)
  {
  }

  /**
   * Every other method consults exactly one relation, on A then B: two
   * engines that agree on that relation at (a, b) agree on the result.
   */
  lemma CompareGeometryConsultsOneRelation(rel1: Relations, rel2: Relations, a: Shape, b: Shape,
                                           how: EGeoCompareMethod)
    requires how == Contains ==> rel1.contains(a, b) == rel2.contains(a, b)
    requires how == Equals ==> rel1.equals(a, b) == rel2.equals(a, b)
    requires how == Crosses ==> rel1.crosses(a, b) == rel2.crosses(a, b)
    requires how == Disjoint ==> rel1.disjoint(a, b) == rel2.disjoint(a, b)
    requires how == Overlaps ==> rel1.overlaps(a, b) == rel2.overlaps(a, b)
    requires how == Relation ==> rel1.relation(a, b, RELATE_PATTERN) == rel2.relation(a, b, RELATE_PATTERN)
    requires how == Touches ==> rel1.touches(a, b) == rel2.touches(a, b)
    requires how == Within ==> rel1.within(a, b) == rel2.within(a, b) && rel1.within(b, a) == rel2.within(b, a)
    ensures CompareGeometry(rel1, a, b, how) == CompareGeometry(rel2, a, b, how)
  {
  }

  // ---------------------------------------------------------------------------
  // Field values as text
  // ---------------------------------------------------------------------------

  /** get_Value(index).ToString(): None where the index is out of range. */
  function TextAt(f: Feature, index: int): (r: Option<string>)
    ensures r.Some? <==> 0 <= index < |f.values|
    ensures r.Some? ==> r.value == ValueString(f.values[index])
  {
    if 0 <= index < |f.values| then Some(ValueString(f.values[index])) else None
  }

  /** Column s of src and column t of tar both exist and print the same text. */
  predicate PairAgrees(src: Feature, tar: Feature, s: int, t: int) {
    TextAt(src, s).Some? && TextAt(src, s) == TextAt(tar, t)
  }

  /** Column s of src and column t of tar both exist and print different text. */
  predicate PairDiffers(src: Feature, tar: Feature, s: int, t: int) {
    TextAt(src, s).Some? && TextAt(tar, t).Some? && TextAt(src, s) != TextAt(tar, t)
  }

  /**
   * The field loop of IsFeatureEqual: the k-th pair compares source column
   * idxSrc[k] with target column idxTar[k] as text and returns false at the
   * first difference; a lookup out of range throws (None).
   */
  function FieldsAgreeAt(src: Feature, tar: Feature, idxSrc: seq<int>, idxTar: seq<int>): Option<bool>
    decreases |idxSrc|
  {
    if idxSrc == [] then Some(true)
    else if idxTar == [] || TextAt(src, idxSrc[0]).None? || TextAt(tar, idxTar[0]).None? then None
    else if TextAt(src, idxSrc[0]) != TextAt(tar, idxTar[0]) then Some(false)
    else FieldsAgreeAt(src, tar, idxSrc[1..], idxTar[1..])
  }

  /** The first k pairs of columns exist and agree. */
  predicate AgreeUpTo(src: Feature, tar: Feature, idxSrc: seq<int>, idxTar: seq<int>, k: nat) {
    && k <= |idxSrc| && k <= |idxTar|
    && forall j :: 0 <= j < k ==> PairAgrees(src, tar, idxSrc[j], idxTar[j])
  }

  /** The field loop passes exactly when every pair agrees. */
  lemma {:induction false} FieldsAgreeAtPasses(src: Feature, tar: Feature, idxSrc: seq<int>, idxTar: seq<int>)
    ensures FieldsAgreeAt(src, tar, idxSrc, idxTar) == Some(true) <==> AgreeUpTo(src, tar, idxSrc, idxTar, |idxSrc|)
    decreases |idxSrc|
  {
    if idxSrc == [] || idxTar == [] {
    } else if !PairAgrees(src, tar, idxSrc[0], idxTar[0]) {
    } else {
      FieldsAgreeAtPasses(src, tar, idxSrc[1..], idxTar[1..]);
      AgreeUpToShift(src, tar, idxSrc, idxTar, |idxSrc| - 1);
    }
  }

  /** Agreement on a prefix after the first pair is agreement on the tails. */
  lemma AgreeUpToShift(src: Feature, tar: Feature, idxSrc: seq<int>, idxTar: seq<int>, k: nat)
    requires idxSrc != [] && idxTar != []
    requires PairAgrees(src, tar, idxSrc[0], idxTar[0])
    ensures AgreeUpTo(src, tar, idxSrc, idxTar, k + 1) <==> AgreeUpTo(src, tar, idxSrc[1..], idxTar[1..], k)
  {
    if AgreeUpTo(src, tar, idxSrc[1..], idxTar[1..], k) {
      forall j | 0 <= j < k + 1 ensures PairAgrees(src, tar, idxSrc[j], idxTar[j]) {
        if j > 0 {
          assert idxSrc[j] == idxSrc[1..][j - 1] && idxTar[j] == idxTar[1..][j - 1];
        }
      }
    }
    if AgreeUpTo(src, tar, idxSrc, idxTar, k + 1) {
      forall j | 0 <= j < k ensures PairAgrees(src, tar, idxSrc[1..][j], idxTar[1..][j]) {
        assert idxSrc[1..][j] == idxSrc[j + 1] && idxTar[1..][j] == idxTar[j + 1];
      }
    }
  }

  /** The pair at k exists on both sides and differs. */
  predicate FirstDifferenceAt(src: Feature, tar: Feature, idxSrc: seq<int>, idxTar: seq<int>, k: nat) {
    k < |idxSrc| && k < |idxTar| && AgreeUpTo(src, tar, idxSrc, idxTar, k)
    && PairDiffers(src, tar, idxSrc[k], idxTar[k])
  }

  /**
   * The field loop fails (false, not a throw) exactly when the first pair
   * that does not agree is one whose two columns both exist.
   */
  lemma {:induction false} FieldsAgreeAtFails(src: Feature, tar: Feature, idxSrc: seq<int>, idxTar: seq<int>)
    ensures FieldsAgreeAt(src, tar, idxSrc, idxTar) == Some(false) <==>
      exists k: nat :: FirstDifferenceAt(src, tar, idxSrc, idxTar, k)
    decreases |idxSrc|
  {
    if idxSrc == [] || idxTar == [] {
    } else if !PairAgrees(src, tar, idxSrc[0], idxTar[0]) {
      if PairDiffers(src, tar, idxSrc[0], idxTar[0]) {
        assert FirstDifferenceAt(src, tar, idxSrc, idxTar, 0);
      }
    } else {
      var s', t' := idxSrc[1..], idxTar[1..];
      FieldsAgreeAtFails(src, tar, s', t');
      if exists k: nat :: FirstDifferenceAt(src, tar, s', t', k) {
        var k: nat :| FirstDifferenceAt(src, tar, s', t', k);
        AgreeUpToShift(src, tar, idxSrc, idxTar, k);
        assert s'[k] == idxSrc[k + 1] && t'[k] == idxTar[k + 1];
        assert FirstDifferenceAt(src, tar, idxSrc, idxTar, k + 1);
      }
      if exists k: nat :: FirstDifferenceAt(src, tar, idxSrc, idxTar, k) {
        var k: nat :| FirstDifferenceAt(src, tar, idxSrc, idxTar, k);
        assert k != 0;
        AgreeUpToShift(src, tar, idxSrc, idxTar, k - 1);
        assert s'[k - 1] == idxSrc[k] && t'[k - 1] == idxTar[k];
        assert FirstDifferenceAt(src, tar, s', t', k - 1);
      }
    }
  }

  /** The column each name has in a schema, FindField name by name (-1 where absent). */
  function Columns(fields: seq<Field>, names: seq<string>): seq<int> {
    seq(|names|, k requires 0 <= k < |names| => FindField(fields, names[k]))
  }

  // ---------------------------------------------------------------------------
  // IsFeatureEqual
  // ---------------------------------------------------------------------------

  /**
   * IsFeatureEqual(source, target, field names): two null features are
   * equal; one null feature throws; otherwise each named field, looked up in
   * each feature's own schema, must agree as text, and then the shapes must
   * be equal by the engine. A missing shape throws in the relational call.
   */
  function IsFeatureEqual(rel: Relations, src: Option<Feature>, tar: Option<Feature>, names: seq<string>)
    : (r: Option<bool>)
    ensures src.None? && tar.None? ==> r == Some(true)
    ensures src.None? != tar.None? ==> r.None?
    ensures r == Some(true) && src.Some? ==>
      && tar.Some?
      && AgreeUpTo(src.value, tar.value, Columns(src.value.fields, names), Columns(tar.value.fields, names), |names|)
      && ShapeOf(src.value).Some? && ShapeOf(tar.value).Some?
      && CompareGeometry(rel, ShapeOf(src.value).value, ShapeOf(tar.value).value, Equals)
  {
    if src.None? && tar.None? then Some(true)
    else if src.None? || tar.None? then None
    else
      var cs, ct := Columns(src.value.fields, names), Columns(tar.value.fields, names);
      FieldsAgreeAtPasses(src.value, tar.value, cs, ct);
      match FieldsAgreeAt(src.value, tar.value, cs, ct)
      case None => None
      case Some(false) => Some(false)
      case Some(true) =>
        match (ShapeOf(src.value), ShapeOf(tar.value))
        case (Some(a), Some(b)) => Some(CompareGeometry(rel, a, b, Equals))
        case _ => None
  }

  /**
   * A named field that differs, every earlier one agreeing, decides the
   * comparison before any geometry is looked at: the result is false
   * whatever the engine's relations are.
   */
  lemma IsFeatureEqualStopsAtField(rel: Relations, src: Feature, tar: Feature, names: seq<string>, k: nat)
    requires FirstDifferenceAt(src, tar, Columns(src.fields, names), Columns(tar.fields, names), k)
    ensures IsFeatureEqual(rel, Some(src), Some(tar), names) == Some(false)
  {
    FieldsAgreeAtFails(src, tar, Columns(src.fields, names), Columns(tar.fields, names));
  }

  /**
   * IsFeatureEqual(source, target, source indices, target indices): as
   * above, by column index; but a missing shape on either side makes the
   * result false rather than throwing. The shape test looks at the source
   * first, so with no columns a shapeless source against a null target is
   * false without touching the target.
   */
  function IsFeatureEqualAt(rel: Relations, src: Option<Feature>, tar: Option<Feature>,
                            idxSrc: seq<int>, idxTar: seq<int>): (r: Option<bool>)
    ensures src.None? && tar.None? ==> r == Some(true)
    ensures src.None? && tar.Some? ==> r.None?
    ensures src.Some? && tar.None? ==>
      (r.None? <==> idxSrc != [] || ShapeOf(src.value).Some?) && (r.Some? ==> r == Some(false))
    ensures r == Some(true) && src.Some? ==>
      && tar.Some? && AgreeUpTo(src.value, tar.value, idxSrc, idxTar, |idxSrc|)
      && ShapeOf(src.value).Some? && ShapeOf(tar.value).Some?
      && CompareGeometry(rel, ShapeOf(src.value).value, ShapeOf(tar.value).value, Equals)
  {
    if src.None? && tar.None? then Some(true)
    else if src.None? then None
    else if tar.None? then
      if idxSrc == [] && ShapeOf(src.value).None? then Some(false) else None
    else
      FieldsAgreeAtPasses(src.value, tar.value, idxSrc, idxTar);
      match FieldsAgreeAt(src.value, tar.value, idxSrc, idxTar)
      case None => None
      case Some(false) => Some(false)
      case Some(true) =>
        match (ShapeOf(src.value), ShapeOf(tar.value))
        case (Some(a), Some(b)) => Some(CompareGeometry(rel, a, b, Equals))
        case _ => Some(false)
  }

  /**
   * The two overloads agree once the names are resolved to columns, except
   * on a feature without a shape, which the index overload calls unequal
   * and the name overload throws on.
   */
  lemma IsFeatureEqualOverloadsAgree(rel: Relations, src: Feature, tar: Feature, names: seq<string>)
    ensures ShapeOf(src).Some? && ShapeOf(tar).Some? ==>
      IsFeatureEqual(rel, Some(src), Some(tar), names)
        == IsFeatureEqualAt(rel, Some(src), Some(tar), Columns(src.fields, names), Columns(tar.fields, names))
    ensures FieldsAgreeAt(src, tar, Columns(src.fields, names), Columns(tar.fields, names)) == Some(true)
            && (ShapeOf(src).None? || ShapeOf(tar).None?) ==>
      && IsFeatureEqual(rel, Some(src), Some(tar), names).None?
      && IsFeatureEqualAt(rel, Some(src), Some(tar), Columns(src.fields, names), Columns(tar.fields, names))
           == Some(false)
  {
  }

  /** A differing column decides the index overload before any geometry comparison. */
  lemma IsFeatureEqualAtStopsAtField(rel: Relations, src: Feature, tar: Feature,
                                     idxSrc: seq<int>, idxTar: seq<int>, k: nat)
    requires FirstDifferenceAt(src, tar, idxSrc, idxTar, k)
    ensures IsFeatureEqualAt(rel, Some(src), Some(tar), idxSrc, idxTar) == Some(false)
  {
    FieldsAgreeAtFails(src, tar, idxSrc, idxTar);
  }
  // ---------------------------------------------------------------------------
  // Column pairs for comparing rows
  // ---------------------------------------------------------------------------

  /** The column each name resolves to in a schema, the array default 0 where it is absent. */
  function Resolved(fields: seq<Field>, names: seq<string>): (idx: seq<int>)
    ensures |idx| == |names|
    ensures forall k :: 0 <= k < |names| ==>
      idx[k] == if FindField(fields, names[k]) == -1 then 0 else FindField(fields, names[k])
  {
    seq(|names|, k requires 0 <= k < |names| =>
      var i := FindField(fields, names[k]); if i == -1 then 0 else i)
  }

  /**
   * The index loop of FindSameFeature and FindSameRow: each compared name is
   * looked up in the first source and the first target row. Found in both,
   * the pair of indices is recorded; found in neither, the pair keeps the
   * array default (0, 0); found in one only, the search returns false.
   */
  method ResolveIndices(names: seq<string>, srcFields: seq<Field>, tarFields: seq<Field>)
    returns (ok: bool, idxSrc: seq<int>, idxTar: seq<int>)
    ensures ok <==> forall k :: 0 <= k < |names| ==>
      (FindField(srcFields, names[k]) == -1 <==> FindField(tarFields, names[k]) == -1)
    ensures ok ==> |idxSrc| == |idxTar| == |names|
    ensures ok ==> idxSrc == Resolved(srcFields, names) && idxTar == Resolved(tarFields, names)
  {
    idxSrc, idxTar := seq(|names|, _ => 0), seq(|names|, _ => 0);
    var i := 0;
    while i < |names|
      invariant 0 <= i <= |names| && |idxSrc| == |idxTar| == |names|
      invariant forall k :: 0 <= k < i ==>
        (FindField(srcFields, names[k]) == -1 <==> FindField(tarFields, names[k]) == -1)
      invariant forall k :: 0 <= k < |names| ==>
        if k >= i || FindField(srcFields, names[k]) == -1 then idxSrc[k] == 0 && idxTar[k] == 0
        else idxSrc[k] == FindField(srcFields, names[k]) && idxTar[k] == FindField(tarFields, names[k])
    {
      var s := FindField(srcFields, names[i]);
      var t := FindField(tarFields, names[i]);
      if s != -1 && t != -1 {
        idxSrc := idxSrc[i := s];
        idxTar := idxTar[i := t];
      } else if s == -1 && t == -1 {
        i := i + 1;
        continue;
      } else {
        return false, idxSrc, idxTar;
      }
      i := i + 1;
    }
    assert idxSrc == Resolved(srcFields, names);
    assert idxTar == Resolved(tarFields, names);
    return true, idxSrc, idxTar;
  }
}
