/**
 * The enumerate-and-delete loop the helper classes share: the workspace
 * overload of DeleteFeatureClass (QArcGISLib/QFeatureClass.cs:899-961), its
 * subset loop in the dataset overload (QArcGISLib/QFeatureClass.cs:1005-1036)
 * and DeleteDataset (QArcGISLib/QDataset.cs:398-459).
 *
 * The loop walks a collection. With an empty target name it deletes every
 * deletable item and notes an error for every other one. With a name it
 * looks at the items whose name matches: a deletable one is deleted and the
 * scan stops; an undeletable one notes an error and either stops the scan or
 * lets it go on, depending on the caller. After the loop, an error makes the
 * result false; otherwise delete-all reports true and a named delete reports
 * whether it deleted.
 */
module DeleteScan {

  /** What a scan leaves behind, whether it deleted a named item, whether it met an undeletable one. */
  datatype Scan<T> = Scan(remaining: seq<T>, deleted: bool, error: bool)

  /** The scan over `items`; `stopAtUndeletable` says whether a named scan stops at an undeletable match. */
  function ScanAll<T>(items: seq<T>, canDelete: T -> bool, nameOf: T -> string, name: string,
                      stopAtUndeletable: bool): (r: Scan<T>)
    ensures |r.remaining| <= |items|
  {
    if items == [] then Scan([], false, false)
    else
      var x := items[0];
      if name == "" || nameOf(x) == name then
        if canDelete(x) then
          if name == "" then ScanAll(items[1..], canDelete, nameOf, name, stopAtUndeletable)
          else Scan(items[1..], true, false)
        else if name != "" && stopAtUndeletable then Scan(items, false, true)
        else
          var rest := ScanAll(items[1..], canDelete, nameOf, name, stopAtUndeletable);
          Scan([x] + rest.remaining, rest.deleted, true)
      else
        var rest := ScanAll(items[1..], canDelete, nameOf, name, stopAtUndeletable);
        Scan([x] + rest.remaining, rest.deleted, rest.error)
  }

  /** The flag logic after the loop: an error wins, then delete-all reports true, else whether it deleted. */
  function Reported<T>(r: Scan<T>, name: string): (ok: bool)
    ensures ok ==> !r.error
    ensures ok && name != "" ==> r.deleted
  {
    if r.error then false else if name == "" then true else r.deleted
  }

  /** A scan that resumes after `kept` was left behind and `error` noted. */
  function Resume<T>(kept: seq<T>, error: bool, rest: Scan<T>): Scan<T> {
    Scan(kept + rest.remaining, rest.deleted, error || rest.error)
  }

  /** One step of a scan resumed at position i, as the loop takes it. */
  lemma ResumeStep<T>(items: seq<T>, i: nat, kept: seq<T>, error: bool, canDelete: T -> bool,
                      nameOf: T -> string, name: string, stop: bool)
    requires i < |items|
    ensures var x := items[i];
      var next := ScanAll(items[i + 1..], canDelete, nameOf, name, stop);
      Resume(kept, error, ScanAll(items[i..], canDelete, nameOf, name, stop)) ==
        if name == "" || nameOf(x) == name then
          if canDelete(x) then
            if name == "" then Resume(kept, error, next)
            else Scan(kept + items[i + 1..], true, error)
          else if name != "" && stop then Scan(kept + items[i..], false, true)
          else Resume(kept + [x], true, next)
        else Resume(kept + [x], error, next)
  {
    assert items[i..][0] == items[i] && items[i..][1..] == items[i + 1..];
    var next := ScanAll(items[i + 1..], canDelete, nameOf, name, stop);
    assert kept + ([items[i]] + next.remaining) == kept + [items[i]] + next.remaining;
  }

  /** Deleting the current item of a collection laid out as kept + items[i..]. */
  lemma DropCurrent<T>(kept: seq<T>, items: seq<T>, i: nat)
    requires i < |items|
    ensures (kept + items[i..])[..|kept|] + (kept + items[i..])[|kept| + 1..] == kept + items[i + 1..]
  {
    assert (kept + items[i..])[..|kept|] == kept;
    assert (kept + items[i..])[|kept| + 1..] == items[i + 1..];
  }

  /** Keeping the current item moves it from the unvisited part to the kept part. */
  lemma KeepCurrent<T>(kept: seq<T>, items: seq<T>, i: nat)
    requires i < |items|
    ensures kept + items[i..] == (kept + [items[i]]) + items[i + 1..]
  {
    assert items[i..] == [items[i]] + items[i + 1..];
  }

  /** Replacing the current item of a collection laid out as kept + items[i..]. */
  lemma ReplaceCurrent<T>(kept: seq<T>, items: seq<T>, i: nat, y: T)
    requires i < |items|
    ensures (kept + items[i..])[|kept| := y] == (kept + [y]) + items[i + 1..]
  {
    assert items[i..] == [items[i]] + items[i + 1..];
  }

  /**
   * One iteration of the loop over `cur`, the collection laid out as the kept
   * items followed by the unvisited items[i..]: the current item (at `pos`)
   * is deleted, kept, or ends the scan. Either the scan stops, with the
   * collection and flags the whole scan ends with, or it goes on from i + 1
   * as the resumed scan says.
   */
  method ScanNext<T>(cur: seq<T>, items: seq<T>, i: nat, pos: nat, ghost kept: seq<T>, error0: bool,
                     canDelete: T -> bool, nameOf: T -> string, name: string, stop: bool)
    returns (cur': seq<T>, stopped: bool, deleted: bool, error: bool, ghost kept': seq<T>, pos': nat)
    requires i < |items| && pos == |kept| && cur == kept + items[i..]
    ensures stopped ==>
      Scan(cur', deleted, error) == Resume(kept, error0, ScanAll(items[i..], canDelete, nameOf, name, stop))
    ensures !stopped ==>
      && !deleted && cur' == kept' + items[i + 1..] && pos' == |kept'|
      && Resume(kept, error0, ScanAll(items[i..], canDelete, nameOf, name, stop))
         == Resume(kept', error, ScanAll(items[i + 1..], canDelete, nameOf, name, stop))
  {
    var x := items[i];
    ghost var here := Resume(kept, error0, ScanAll(items[i..], canDelete, nameOf, name, stop));
    ghost var next := ScanAll(items[i + 1..], canDelete, nameOf, name, stop);
    if name == "" || nameOf(x) == name {
      if canDelete(x) {
        DropCurrent(kept, items, i);
        cur' := cur[..pos] + cur[pos + 1..];
        if name != "" {
          assert here == Scan(kept + items[i + 1..], true, error0) by {
            ResumeStep(items, i, kept, error0, canDelete, nameOf, name, stop);
          }
          return cur', true, true, error0, kept, pos;
        }
        assert here == Resume(kept, error0, next) by {
          ResumeStep(items, i, kept, error0, canDelete, nameOf, name, stop);
        }
        return cur', false, false, error0, kept, pos;
      }
      if name != "" && stop {
        assert here == Scan(kept + items[i..], false, true) by {
          ResumeStep(items, i, kept, error0, canDelete, nameOf, name, stop);
        }
        return cur, true, false, true, kept, pos;
      }
      assert here == Resume(kept + [x], true, next) by {
        ResumeStep(items, i, kept, error0, canDelete, nameOf, name, stop);
      }
      KeepCurrent(kept, items, i);
      return cur, false, false, true, kept + [x], pos + 1;
    }
    assert here == Resume(kept + [x], error0, next) by {
      ResumeStep(items, i, kept, error0, canDelete, nameOf, name, stop);
    }
    KeepCurrent(kept, items, i);
    return cur, false, false, error0, kept + [x], pos + 1;
  }

  /** The index of the first item with the given name, -1 when there is none. */
  function FirstMatch<T>(items: seq<T>, nameOf: T -> string, name: string): (i: int)
    ensures -1 <= i < |items|
    ensures i >= 0 ==> nameOf(items[i]) == name
  {
    if items == [] then -1
    else if nameOf(items[0]) == name then 0
    else
      var j := FirstMatch(items[1..], nameOf, name);
      if j == -1 then -1 else j + 1
  }

  /** FirstMatch is the first item with the name, and -1 means that no item has it. */
  lemma {:induction false} FirstMatchFirst<T>(items: seq<T>, nameOf: T -> string, name: string)
    ensures var i := FirstMatch(items, nameOf, name);
      && (i >= 0 ==> forall k :: 0 <= k < i ==> nameOf(items[k]) != name)
      && (i == -1 <==> forall k :: 0 <= k < |items| ==> nameOf(items[k]) != name)
  {
    if items != [] && nameOf(items[0]) != name {
      FirstMatchFirst(items[1..], nameOf, name);
      assert forall k :: 1 <= k < |items| ==> items[k] == items[1..][k - 1];
    }
  }

  /**
   * Delete-all leaves exactly the undeletable items, deletes no named item,
   * and reports true iff every item was deletable.
   */
  lemma {:induction false} DeleteAllKeepsUndeletable<T>(items: seq<T>, canDelete: T -> bool,
                                                         nameOf: T -> string, stop: bool)
    ensures var r := ScanAll(items, canDelete, nameOf, "", stop);
      && (forall x :: x in r.remaining <==> x in items && !canDelete(x))
      && !r.deleted
      && (Reported(r, "") <==> forall k :: 0 <= k < |items| ==> canDelete(items[k]))
  {
    if items != [] {
      DeleteAllKeepsUndeletable(items[1..], canDelete, nameOf, stop);
      assert items == [items[0]] + items[1..];
      var r := ScanAll(items, canDelete, nameOf, "", stop);
      if !canDelete(items[0]) {
        assert !Reported(r, "");
      } else if forall k :: 0 <= k < |items[1..]| ==> canDelete(items[1..][k]) {
        forall k | 0 <= k < |items| ensures canDelete(items[k]) {
          if k > 0 { assert items[k] == items[1..][k - 1]; }
        }
      }
    }
  }

  /** Removing position j + 1 of a sequence with a head is removing position j of its tail. */
  lemma RemoveAtCons<T>(items: seq<T>, j: nat)
    requires 0 < |items| && j + 1 < |items|
    ensures [items[0]] + (items[1..][..j] + items[1..][j + 1..]) == items[..j + 1] + items[j + 2..]
  {
    assert items[1..][..j] == items[1..j + 1];
    assert [items[0]] + items[1..j + 1] == items[..j + 1];
    assert items[1..][j + 1..] == items[j + 2..];
  }

  /**
   * A named scan that stops at any match touches only the first item of that
   * name: it deletes it when it is deletable, and otherwise changes nothing
   * and notes an error.
   */
  lemma {:induction false} DeleteNamedFirstMatch<T>(items: seq<T>, canDelete: T -> bool,
                                                    nameOf: T -> string, name: string)
    requires name != ""
    ensures var r := ScanAll(items, canDelete, nameOf, name, true);
      var i := FirstMatch(items, nameOf, name);
      && r.deleted == (i >= 0 && canDelete(items[i]))
      && r.error == (i >= 0 && !canDelete(items[i]))
      && r.remaining == if i >= 0 && canDelete(items[i]) then items[..i] + items[i + 1..] else items
  {
    if items != [] && nameOf(items[0]) != name {
      var rest := items[1..];
      DeleteNamedFirstMatch(rest, canDelete, nameOf, name);
      var j := FirstMatch(rest, nameOf, name);
      var r' := ScanAll(rest, canDelete, nameOf, name, true);
      assert ScanAll(items, canDelete, nameOf, name, true) == Scan([items[0]] + r'.remaining, r'.deleted, r'.error);
      assert FirstMatch(items, nameOf, name) == if j == -1 then -1 else j + 1;
      if j >= 0 {
        assert rest[j] == items[j + 1];
        if canDelete(rest[j]) {
          RemoveAtCons(items, j);
        } else {
          assert items == [items[0]] + rest;
        }
      } else {
        assert items == [items[0]] + rest;
      }
    }
  }

  /**
   * The same, as the caller sees it: with no match, or an undeletable first
   * match, nothing changes and the result is false; a deletable first match
   * is removed and the result is true.
   */
  lemma DeleteNamedReports<T>(items: seq<T>, canDelete: T -> bool, nameOf: T -> string, name: string)
    requires name != ""
    ensures var r := ScanAll(items, canDelete, nameOf, name, true);
      var i := FirstMatch(items, nameOf, name);
      && (i == -1 ==> r.remaining == items && !Reported(r, name))
      && (i >= 0 && canDelete(items[i]) ==> r.remaining == items[..i] + items[i + 1..] && Reported(r, name))
      && (i >= 0 && !canDelete(items[i]) ==> r.remaining == items && !Reported(r, name))
  {
    DeleteNamedFirstMatch(items, canDelete, nameOf, name);
  }

  /** A named scan never removes an item of another name, and removes at most one item. */
  lemma DeleteNamedSparesOthers<T>(items: seq<T>, canDelete: T -> bool, nameOf: T -> string,
                                   name: string)
    requires name != ""
    ensures var r := ScanAll(items, canDelete, nameOf, name, true);
      && (forall x :: x in items && nameOf(x) != name ==> x in r.remaining)
      && |items| - 1 <= |r.remaining|
  {
    DeleteNamedFirstMatch(items, canDelete, nameOf, name);
    var i := FirstMatch(items, nameOf, name);
    if i >= 0 && canDelete(items[i]) {
      forall x | x in items && nameOf(x) != name
        ensures x in items[..i] + items[i + 1..]
      {
        StillInAfterRemoving(items, i, x);
      }
    }
  }

  /** An item other than the one at i survives removing position i. */
  lemma StillInAfterRemoving<T>(items: seq<T>, i: nat, x: T)
    requires i < |items| && x in items && x != items[i]
    ensures x in items[..i] + items[i + 1..]
  {
    var k :| 0 <= k < |items| && items[k] == x;
    if k < i {
      assert x == (items[..i] + items[i + 1..])[k];
    } else {
      assert x == (items[..i] + items[i + 1..])[k - 1];
    }
  }

  /** The first deletable item of the given name, -1 when there is none. */
  function FirstDeletableMatch<T>(items: seq<T>, canDelete: T -> bool, nameOf: T -> string,
                                  name: string): (i: int)
    ensures -1 <= i < |items|
    ensures i >= 0 ==> nameOf(items[i]) == name && canDelete(items[i])
  {
    if items == [] then -1
    else if nameOf(items[0]) == name && canDelete(items[0]) then 0
    else
      var j := FirstDeletableMatch(items[1..], canDelete, nameOf, name);
      if j == -1 then -1 else j + 1
  }

  /** FirstDeletableMatch is the first deletable item with the name, and -1 means there is none. */
  lemma {:induction false} FirstDeletableMatchFirst<T>(items: seq<T>, canDelete: T -> bool,
                                                       nameOf: T -> string, name: string)
    ensures var i := FirstDeletableMatch(items, canDelete, nameOf, name);
      && (i >= 0 ==> forall k :: 0 <= k < i ==> !(nameOf(items[k]) == name && canDelete(items[k])))
      && (i == -1 <==> forall k :: 0 <= k < |items| ==> !(nameOf(items[k]) == name && canDelete(items[k])))
  {
    if items != [] && !(nameOf(items[0]) == name && canDelete(items[0])) {
      FirstDeletableMatchFirst(items[1..], canDelete, nameOf, name);
      assert forall k :: 1 <= k < |items| ==> items[k] == items[1..][k - 1];
    }
  }

  /** The items without the one at position i. */
  function RemoveAt<T>(items: seq<T>, i: nat): seq<T>
    requires i < |items|
  {
    if i == 0 then items[1..] else [items[0]] + RemoveAt(items[1..], i - 1)
  }

  /** RemoveAt is the items before i followed by the items after it. */
  lemma {:induction false} RemoveAtSlices<T>(items: seq<T>, i: nat)
    requires i < |items|
    ensures RemoveAt(items, i) == items[..i] + items[i + 1..]
  {
    if i == 0 {
      assert items[..0] + items[1..] == items[1..];
    } else {
      RemoveAtSlices(items[1..], i - 1);
      RemoveAtCons(items, i - 1);
    }
  }

  /** DeleteNamedPastUndeletable with the removal stated by RemoveAt. */
  lemma {:induction false} PastUndeletableRemoves<T>(items: seq<T>, canDelete: T -> bool,
                                                     nameOf: T -> string, name: string)
    requires name != ""
    ensures var r := ScanAll(items, canDelete, nameOf, name, false);
      var i := FirstDeletableMatch(items, canDelete, nameOf, name);
      && r.deleted == (i >= 0)
      && r.remaining == if i >= 0 then RemoveAt(items, i) else items
  {
    if items != [] && !(nameOf(items[0]) == name && canDelete(items[0])) {
      PastUndeletableRemoves(items[1..], canDelete, nameOf, name);
      assert items == [items[0]] + items[1..];
    }
  }

  /**
   * A named scan that goes on past undeletable matches deletes the first
   * deletable match, if any, and nothing else.
   */
  lemma DeleteNamedPastUndeletable<T>(items: seq<T>, canDelete: T -> bool,
                                      nameOf: T -> string, name: string)
    requires name != ""
    ensures var r := ScanAll(items, canDelete, nameOf, name, false);
      var i := FirstDeletableMatch(items, canDelete, nameOf, name);
      && r.deleted == (i >= 0)
      && r.remaining == if i >= 0 then items[..i] + items[i + 1..] else items
  {
    PastUndeletableRemoves(items, canDelete, nameOf, name);
    var i := FirstDeletableMatch(items, canDelete, nameOf, name);
    if i >= 0 {
      RemoveAtSlices(items, i);
    }
  }

  /** Some item before `end` has the name and cannot be deleted. */
  predicate UndeletableMatchBefore<T>(items: seq<T>, canDelete: T -> bool, nameOf: T -> string,
                                      name: string, end: int)
  {
    exists k :: 0 <= k < end && k < |items| && nameOf(items[k]) == name && !canDelete(items[k])
  }

  /**
   * ... and notes an error iff an undeletable match comes before the deleted
   * one (anywhere, when nothing was deleted).
   */
  lemma {:induction false} UndeletableMatchNoted<T>(items: seq<T>, canDelete: T -> bool,
                                                    nameOf: T -> string, name: string)
    requires name != ""
    ensures var i := FirstDeletableMatch(items, canDelete, nameOf, name);
      (ScanAll(items, canDelete, nameOf, name, false).error
       <==> UndeletableMatchBefore(items, canDelete, nameOf, name, if i == -1 then |items| else i))
  {
    if items != [] && !(nameOf(items[0]) == name && canDelete(items[0])) {
      var rest := items[1..];
      UndeletableMatchNoted(rest, canDelete, nameOf, name);
      var j := FirstDeletableMatch(rest, canDelete, nameOf, name);
      var i := FirstDeletableMatch(items, canDelete, nameOf, name);
      var end := if i == -1 then |items| else i;
      var end1 := if j == -1 then |rest| else j;
      assert end == end1 + 1;
      if UndeletableMatchBefore(rest, canDelete, nameOf, name, end1) {
        var k :| 0 <= k < end1 && k < |rest| && nameOf(rest[k]) == name && !canDelete(rest[k]);
        assert rest[k] == items[k + 1];
        assert UndeletableMatchBefore(items, canDelete, nameOf, name, end);
      }
      if UndeletableMatchBefore(items, canDelete, nameOf, name, end) && nameOf(items[0]) != name {
        var k :| 0 <= k < end && k < |items| && nameOf(items[k]) == name && !canDelete(items[k]);
        assert k > 0 && items[k] == rest[k - 1];
        assert UndeletableMatchBefore(rest, canDelete, nameOf, name, end1);
      }
      if nameOf(items[0]) == name {
        assert UndeletableMatchBefore(items, canDelete, nameOf, name, end);
      }
    }
  }
}
