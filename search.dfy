/**
 * The search loops the comparison helpers share: walking comparison
 * outcomes forwards or backwards to the first that holds, and the
 * backward, shrinking-window matching loop of the list FindSameFeature
 * (QArcGISLib/QFeature.cs:128-146) and FindSameRow
 * (QArcGISLib/QTable.cs:700-723).
 *
 * A comparison outcome is `Some(b)`, or `None` where the comparison throws.
 */
module Search {
  import opened Wrappers
  import opened Geodatabase

  // ---------------------------------------------------------------------------
  // First hit among a sequence of comparisons
  // ---------------------------------------------------------------------------

  /** The outcome of walking comparisons in order until one holds or throws. */
  datatype Probe = Found(index: nat) | NotFound | Threw

  /**
   * Walk the outcomes in order: the first `Some(true)` is found, a `None`
   * (a comparison that throws) before it ends the walk with an exception.
   */
  function FirstTrue(os: seq<Option<bool>>): (p: Probe)
    ensures p.Found? ==> p.index < |os| && os[p.index] == Some(true)
    ensures p.Found? ==> forall k :: 0 <= k < p.index ==> os[k] == Some(false)
    ensures p.NotFound? <==> forall k :: 0 <= k < |os| ==> os[k] == Some(false)
    ensures p.Threw? ==> exists k :: 0 <= k < |os| && os[k].None?
  {
    if os == [] then NotFound
    else if os[0].None? then Threw
    else if os[0].value then Found(0)
    else
      var rest := FirstTrue(os[1..]);
      assert forall k :: 0 <= k < |os[1..]| ==> os[1..][k] == os[k + 1];
      match rest
      case Found(j) => Found(j + 1)
      case NotFound => NotFound
      case Threw => Threw
  }

  /** Outcomes that are all false before i leave the decision to position i. */
  lemma {:induction false} FirstTrueSkips(os: seq<Option<bool>>, i: nat)
    requires i < |os|
    requires forall k :: 0 <= k < i ==> os[k] == Some(false)
    ensures os[i].None? ==> FirstTrue(os) == Threw
    ensures os[i] == Some(true) ==> FirstTrue(os) == Found(i)
  {
    if i > 0 {
      FirstTrueSkips(os[1..], i - 1);
    }
  }

  /**
   * Walk the outcomes from the last one down: the first `Some(true)` met is
   * found, a `None` met before it ends the walk with an exception.
   */
  function LastTrue(os: seq<Option<bool>>): (p: Probe)
    ensures p.Found? ==> p.index < |os| && os[p.index] == Some(true)
    ensures p.Found? ==> forall k :: p.index < k < |os| ==> os[k] == Some(false)
    ensures p.NotFound? <==> forall k :: 0 <= k < |os| ==> os[k] == Some(false)
    ensures p.Threw? ==> exists k :: 0 <= k < |os| && os[k].None?
  {
    if os == [] then NotFound
    else if os[|os| - 1].None? then Threw
    else if os[|os| - 1].value then Found(|os| - 1)
    else LastTrue(os[..|os| - 1])
  }

  /** Outcomes that are all false after i leave the backward walk's decision to position i. */
  lemma {:induction false} LastTrueSkips(os: seq<Option<bool>>, i: nat)
    requires i < |os|
    requires forall k :: i < k < |os| ==> os[k] == Some(false)
    ensures os[i].None? ==> LastTrue(os) == Threw
    ensures os[i] == Some(true) ==> LastTrue(os) == Found(i)
  {
    if i < |os| - 1 {
      LastTrueSkips(os[..|os| - 1], i);
    }
  }

  // ---------------------------------------------------------------------------
  // The shrinking-window matching loop
  // ---------------------------------------------------------------------------

  /** A comparison of a (non-null) source row with a possibly null target row. */
  type Comparison = (Feature, Option<Feature>) -> Option<bool>

  /**
   * The matching loop between sources: the targets recorded so far (the
   * caller's list), the size of the target window still searched, whether
   * a match has been recorded, and whether a comparison has thrown.
   */
  datatype Window = Window(found: seq<Option<Feature>>, count: nat, isExist: bool, threw: bool)

  /** The comparison of one source with each target inside the window. */
  function WindowOutcomes(cmp: Comparison, src: Feature, targets: seq<Option<Feature>>, count: nat)
    : seq<Option<bool>>
    requires count <= |targets|
  {
    seq(count, j requires 0 <= j < count => cmp(src, targets[j]))
  }

  /**
   * One source: a null source is skipped; otherwise the window is searched
   * from its end down, and the first target that compares equal is
   * recorded, the flag set, and the window shortened by one at its end
   * (whichever target matched).
   */
  function WindowStep(cmp: Comparison, targets: seq<Option<Feature>>, st: Window, src: Option<Feature>): (r: Window)
    requires st.count <= |targets|
    ensures r.count <= st.count
  {
    if st.threw || src.None? then st
    else match LastTrue(WindowOutcomes(cmp, src.value, targets, st.count))
      case Found(j) => Window(st.found + [targets[j]], st.count - 1, true, false)
      case NotFound => st
      case Threw => st.(threw := true)
  }

  /** The loop after the last k sources (it walks the sources from the end). */
  function WindowMatches(cmp: Comparison, sources: seq<Option<Feature>>, targets: seq<Option<Feature>>,
                         start: Window, k: nat): (r: Window)
    requires k <= |sources| && start.count <= |targets|
    ensures r.count <= start.count
  {
    if k == 0 then start
    else WindowStep(cmp, targets, WindowMatches(cmp, sources, targets, start, k - 1), sources[|sources| - k])
  }

  /** Target t compares equal to some non-null source. */
  predicate MatchesSomeSource(cmp: Comparison, sources: seq<Option<Feature>>, t: Option<Feature>) {
    exists i :: 0 <= i < |sources| && sources[i].Some? && cmp(sources[i].value, t) == Some(true)
  }

  /**
   * What the loop keeps true from a full window and a clear flag: the
   * caller's earlier entries stay in front; each match records one entry and
   * shortens the window by one, so there are at most as many entries as
   * sources looked at; the flag is set exactly when something was recorded;
   * the m-th entry recorded came from the first |targets| - m targets; and
   * every entry compares equal to some source.
   */
  ghost predicate WindowKept(cmp: Comparison, sources: seq<Option<Feature>>, targets: seq<Option<Feature>>,
                             found0: seq<Option<Feature>>, r: Window, k: nat)
  {
    && |found0| <= |r.found|
    && r.found[..|found0|] == found0
    && |r.found| - |found0| + r.count == |targets|
    && |r.found| - |found0| <= k
    && (r.isExist <==> |r.found| > |found0|)
    && RecordedFrom(cmp, sources, targets, r.found[|found0|..])
  }

  /** The m-th entry recorded lies in the first |targets| - m targets and matches some source. */
  ghost predicate RecordedFrom(cmp: Comparison, sources: seq<Option<Feature>>, targets: seq<Option<Feature>>,
                               added: seq<Option<Feature>>)
  {
    forall m :: 0 <= m < |added| ==>
      m <= |targets| && added[m] in targets[..|targets| - m] && MatchesSomeSource(cmp, sources, added[m])
  }

  /** A match found at j in the window extends the record by one entry. */
  lemma RecordOneMore(cmp: Comparison, sources: seq<Option<Feature>>, targets: seq<Option<Feature>>,
                      added: seq<Option<Feature>>, i: nat, j: nat)
    requires RecordedFrom(cmp, sources, targets, added)
    requires i < |sources| && sources[i].Some? && j < |targets| - |added|
    requires cmp(sources[i].value, targets[j]) == Some(true)
    ensures RecordedFrom(cmp, sources, targets, added + [targets[j]])
  {
    assert targets[..|targets| - |added|][j] == targets[j];
    assert MatchesSomeSource(cmp, sources, targets[j]);
  }

  /** One source keeps the window invariant. */
  lemma WindowStepKept(cmp: Comparison, sources: seq<Option<Feature>>, targets: seq<Option<Feature>>,
                       found0: seq<Option<Feature>>, st: Window, k: nat)
    requires k < |sources| && st.count <= |targets|
    requires WindowKept(cmp, sources, targets, found0, st, k)
    ensures WindowKept(cmp, sources, targets, found0,
                       WindowStep(cmp, targets, st, sources[|sources| - 1 - k]), k + 1)
  {
    var i := |sources| - 1 - k;
    if !st.threw && sources[i].Some? {
      var os := WindowOutcomes(cmp, sources[i].value, targets, st.count);
      var p := LastTrue(os);
      if p.Found? {
        var j := p.index;
        var found := st.found + [targets[j]];
        assert os[j] == Some(true);
        RecordOneMore(cmp, sources, targets, st.found[|found0|..], i, j);
        assert found[|found0|..] == st.found[|found0|..] + [targets[j]];
        assert found[..|found0|] == st.found[..|found0|];
      }
    }
  }

  /** The loop over any number of sources keeps the window invariant. */
  lemma {:induction false} WindowMatchesKept(cmp: Comparison, sources: seq<Option<Feature>>,
                                             targets: seq<Option<Feature>>, found0: seq<Option<Feature>>, k: nat)
    requires k <= |sources|
    ensures WindowKept(cmp, sources, targets, found0,
                       WindowMatches(cmp, sources, targets, Window(found0, |targets|, false, false), k), k)
  {
    if k == 0 {
      assert found0[..|found0|] == found0;
    } else {
      WindowMatchesKept(cmp, sources, targets, found0, k - 1);
      WindowStepKept(cmp, sources, targets, found0,
                     WindowMatches(cmp, sources, targets, Window(found0, |targets|, false, false), k - 1), k - 1);
    }
  }

  /**
   * Completeness of one source: a target in the window that compares equal
   * is not missed. Unless a comparison throws, one target is recorded, the
   * window shrinks by one and the flag is set.
   */
  lemma WindowStepRecordsMatch(cmp: Comparison, targets: seq<Option<Feature>>, st: Window, src: Feature, j: nat)
    requires st.count <= |targets| && !st.threw
    requires j < st.count && cmp(src, targets[j]) == Some(true)
    ensures var r := WindowStep(cmp, targets, st, Some(src));
      r.threw || (r.isExist && r.count == st.count - 1 && |r.found| == |st.found| + 1)
  {
    var os := WindowOutcomes(cmp, src, targets, st.count);
    assert os[j] == Some(true);
  }

  /**
   * Completeness of the loop: when it neither threw nor recorded anything,
   * every non-null source among the last k compares unequal to every target.
   */
  lemma {:induction false} WindowMatchesComplete(cmp: Comparison, sources: seq<Option<Feature>>,
                                                 targets: seq<Option<Feature>>, found0: seq<Option<Feature>>, k: nat)
    requires k <= |sources|
    ensures var r := WindowMatches(cmp, sources, targets, Window(found0, |targets|, false, false), k);
      !r.threw && !r.isExist ==>
        forall i, j :: |sources| - k <= i < |sources| && 0 <= j < |targets| && sources[i].Some? ==>
          cmp(sources[i].value, targets[j]) == Some(false)
  {
    if k > 0 {
      var start := Window(found0, |targets|, false, false);
      var st := WindowMatches(cmp, sources, targets, start, k - 1);
      var src := sources[|sources| - k];
      var r := WindowStep(cmp, targets, st, src);
      if !r.threw && !r.isExist {
        WindowMatchesComplete(cmp, sources, targets, found0, k - 1);
        WindowMatchesKept(cmp, sources, targets, found0, k - 1);
        assert !st.threw && !st.isExist && st.count == |targets|;
        if src.Some? {
          var os := WindowOutcomes(cmp, src.value, targets, st.count);
          assert LastTrue(os).NotFound?;
          forall j | 0 <= j < |targets|
            ensures cmp(src.value, targets[j]) == Some(false)
          {
            assert os[j] == cmp(src.value, targets[j]);
          }
        }
      }
    }
  }

  /** Once a comparison has thrown, later sources change nothing. */
  lemma {:induction false} WindowStaysThrown(cmp: Comparison, sources: seq<Option<Feature>>,
                                             targets: seq<Option<Feature>>, start: Window, i: nat, k: nat)
    requires i <= k <= |sources| && start.count <= |targets|
    requires WindowMatches(cmp, sources, targets, start, i).threw
    ensures WindowMatches(cmp, sources, targets, start, k) == WindowMatches(cmp, sources, targets, start, i)
    decreases k
  {
    if k > i {
      WindowStaysThrown(cmp, sources, targets, start, i, k - 1);
    }
  }

  /** The inner loop: the window searched from its end down. */
  method SearchWindow(cmp: Comparison, src: Feature, targets: seq<Option<Feature>>, count: nat)
    returns (p: Probe)
    requires count <= |targets|
    ensures p == LastTrue(WindowOutcomes(cmp, src, targets, count))
  {
    ghost var os := WindowOutcomes(cmp, src, targets, count);
    var j := count;
    while j > 0
      invariant 0 <= j <= count
      invariant forall k :: j <= k < count ==> os[k] == Some(false)
    {
      j := j - 1;
      var e := cmp(src, targets[j]);
      assert e == os[j];
      if e.None? || e.value {
        LastTrueSkips(os, j);
        return if e.None? then Threw else Found(j);
      }
    }
    return NotFound;
  }

  /**
   * The nested loops: the sources from the last down, each searching the
   * window of targets from its end down. Returns the caller's list with the
   * recorded targets appended, the flag, and whether a comparison threw
   * (which ends the loops).
   */
  method MatchWindow(cmp: Comparison, sources: seq<Option<Feature>>, targets: seq<Option<Feature>>,
                     found0: seq<Option<Feature>>)
    returns (found: seq<Option<Feature>>, isExist: bool, threw: bool)
    ensures var r := WindowMatches(cmp, sources, targets, Window(found0, |targets|, false, false), |sources|);
      found == r.found && isExist == r.isExist && threw == r.threw
  {
    ghost var start := Window(found0, |targets|, false, false);
    found, isExist := found0, false;
    var count: nat := |targets|;
    var i := |sources|;
    while i > 0
      invariant 0 <= i <= |sources| && count <= |targets|
      invariant WindowMatches(cmp, sources, targets, start, |sources| - i) == Window(found, count, isExist, false)
    {
      i := i - 1;
      var stepThrew;
      found, count, isExist, stepThrew := MatchSource(cmp, targets, sources[i], found, count, isExist);
      if stepThrew {
        WindowStaysThrown(cmp, sources, targets, start, |sources| - i, |sources|);
        return found, isExist, true;
      }
    }
    return found, isExist, false;
  }

  /** One iteration of MatchWindow's outer loop, stated against WindowStep. */
  method MatchSource(cmp: Comparison, targets: seq<Option<Feature>>, src: Option<Feature>,
                     found0: seq<Option<Feature>>, count0: nat, isExist0: bool)
    returns (found: seq<Option<Feature>>, count: nat, isExist: bool, threw: bool)
    requires count0 <= |targets|
    ensures Window(found, count, isExist, threw) == WindowStep(cmp, targets, Window(found0, count0, isExist0, false), src)
  {
    found, count, isExist, threw := found0, count0, isExist0, false;
    if src.Some? {
      var p := SearchWindow(cmp, src.value, targets, count);
      if p.Threw? {
        return found, count, isExist, true;
      }
      if p.Found? {
        found := found + [targets[p.index]];
        count := count - 1;
        isExist := true;
      }
    }
  }
}
