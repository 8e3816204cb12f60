/** Carrying user edits back through the unreviewed patch. `patch` takes the base text to the snapshot,
    `edits` take the snapshot to the buffer; the edits that touch no unreviewed hunk are applied to the base. */
module Rebase {
  import opened LineText
  import opened Patches
  import opened RowPatches

  // ----- where an edit lies relative to a hunk

  predicate EndsBefore(e: Edit, h: Edit) {
    e.before.end < h.after.start || (!h.after.IsEmpty() && e.before.end == h.after.start)
  }

  predicate StartsAfter(e: Edit, h: Edit) {
    e.before.start > h.after.end || (!h.after.IsEmpty() && e.before.start == h.after.end)
  }

  predicate Conflicts(e: Edit, h: Edit) {
    !EndsBefore(e, h) && !StartsAfter(e, h)
  }

  predicate Free(patch: Patch, e: Edit) {
    forall k | 0 <= k < |patch| :: !Conflicts(e, patch[k])
  }

  /** By how much the hunks before `e` have moved the rows of `e`. */
  function Moved(patch: Patch, e: Edit): int {
    if patch == [] then 0
    else (if StartsAfter(e, patch[0]) then patch[0].Growth() else 0) + Moved(patch[1..], e)
  }

  /** The edits that conflict with no hunk, at the rows of the base they stand for. */
  function Transported(patch: Patch, edits: Patch, shift: int): Patch {
    if edits == [] then []
    else if Free(patch, edits[0]) then
      [Edit(edits[0].before.Shift(-(shift + Moved(patch, edits[0]))), edits[0].after)]
      + Transported(patch, edits[1..], shift)
    else Transported(patch, edits[1..], shift)
  }

  /** The edits that conflict with a hunk. */
  function Blocked(patch: Patch, edits: Patch): Patch {
    if edits == [] then []
    else if Free(patch, edits[0]) then Blocked(patch, edits[1..])
    else [edits[0]] + Blocked(patch, edits[1..])
  }

  // ----- the same in rows

  /** The edit meets the hunk: it takes out a row of it or puts rows in between two of its rows, or, where the hunk has no
      rows, it reaches the place where these were. Next to a hunk with rows it does not meet it. */
  predicate MeetsRows(e: Edit, h: Edit) {
    if h.after.start < h.after.end then e.before.start < h.after.end && h.after.start < e.before.end
    else e.before.start <= h.after.start <= e.before.end
  }

  /** Meeting a hunk with rows is taking out one of them, or putting rows in between two of them. */
  lemma MeetingIsSharing(e: Edit, h: Edit)
    requires e.before.start <= e.before.end && h.after.start < h.after.end
    ensures MeetsRows(e, h) <==>
      (exists r :: e.before.Has(r) && h.after.Has(r)) || h.after.start < e.before.start == e.before.end < h.after.end
  {
    if MeetsRows(e, h) && e.before.start < e.before.end {
      var r := Max(e.before.start, h.after.start);
      assert e.before.Has(r) && h.after.Has(r);
    }
  }

  /** An edit conflicts with exactly the hunks it meets. */
  lemma ConflictRule(e: Edit, h: Edit)
    requires e.before.start <= e.before.end && h.after.start <= h.after.end
    ensures Conflicts(e, h) <==> MeetsRows(e, h)
  {
  }

  predicate MeetsAny(patch: Patch, e: Edit) {
    exists k | 0 <= k < |patch| :: MeetsRows(e, patch[k])
  }

  /** By how much the hunks that start before `e` have moved its rows. */
  function GrowthBefore(patch: Patch, e: Edit): int {
    if patch == [] then 0
    else (if patch[0].after.start < e.before.start then patch[0].Growth() else 0) + GrowthBefore(patch[1..], e)
  }

  /** The edits that meet no hunk, moved back by the growth of the hunks before them. */
  function InBase(patch: Patch, edits: Patch): Patch {
    if edits == [] then []
    else if MeetsAny(patch, edits[0]) then InBase(patch, edits[1..])
    else [Edit(edits[0].before.Shift(-GrowthBefore(patch, edits[0])), edits[0].after)] + InBase(patch, edits[1..])
  }

  /** Edits that meet no hunk are all carried over. */
  lemma {:induction false} AllInBase(patch: Patch, edits: Patch)
    requires forall m | 0 <= m < |edits| :: !MeetsAny(patch, edits[m])
    ensures |InBase(patch, edits)| == |edits|
    ensures forall m | 0 <= m < |edits| ::
      InBase(patch, edits)[m] == Edit(edits[m].before.Shift(-GrowthBefore(patch, edits[m])), edits[m].after)
  {
    if edits != [] {
      assert forall k | 0 <= k < |edits[1..]| :: edits[1..][k] == edits[k + 1];
      AllInBase(patch, edits[1..]);
    }
  }

  lemma FreeInRows(patch: Patch, e: Edit)
    requires Proper(patch) && e.before.start <= e.before.end
    ensures Free(patch, e) <==> !MeetsAny(patch, e)
  {
    forall k | 0 <= k < |patch| ensures Conflicts(e, patch[k]) <==> MeetsRows(e, patch[k]) {
      ConflictRule(e, patch[k]);
    }
  }

  lemma {:induction false} MovedInRows(patch: Patch, e: Edit)
    requires Proper(patch) && e.before.start <= e.before.end && Free(patch, e)
    ensures Moved(patch, e) == GrowthBefore(patch, e)
  {
    if patch != [] {
      assert !Conflicts(e, patch[0]) && forall k | 0 <= k < |patch[1..]| :: patch[1..][k] == patch[k + 1];
      MovedInRows(patch[1..], e);
    }
  }

  lemma {:induction false} TransportedInRows(patch: Patch, edits: Patch)
    requires Proper(patch) && Proper(edits)
    ensures Transported(patch, edits, 0) == InBase(patch, edits)
  {
    if edits != [] {
      assert forall k | 0 <= k < |edits[1..]| :: edits[1..][k] == edits[k + 1];
      TransportedInRows(patch, edits[1..]);
      FreeInRows(patch, edits[0]);
      if Free(patch, edits[0]) {
        MovedInRows(patch, edits[0]);
      }
    }
  }

  // ----- order

  lemma BeforeTheRest(patch: Patch, e: Edit)
    requires Separated(patch) && patch != [] && EndsBefore(e, patch[0]) && e.before.start <= e.before.end
    requires forall k | 0 <= k < |patch| :: patch[k].after.start <= patch[k].after.end
    ensures forall k | 0 <= k < |patch| :: EndsBefore(e, patch[k]) && !StartsAfter(e, patch[k])
    ensures Free(patch, e)
  {
  }

  lemma {:induction false} MovedZero(patch: Patch, e: Edit)
    requires forall k | 0 <= k < |patch| :: !StartsAfter(e, patch[k])
    ensures Moved(patch, e) == 0
  {
    if patch != [] {
      MovedZero(patch[1..], e);
    }
  }

  /** A hunk that every edit either lies after, or conflicts beyond, can be left out. */
  lemma {:induction false} DropHunk(patch: Patch, edits: Patch, shift: int)
    requires patch != []
    requires forall m | 0 <= m < |edits| :: StartsAfter(edits[m], patch[0]) || !Free(patch[1..], edits[m])
    ensures Transported(patch, edits, shift) == Transported(patch[1..], edits, shift + patch[0].Growth())
    ensures Blocked(patch, edits) == Blocked(patch[1..], edits)
  {
    if edits != [] {
      DropHunk(patch, edits[1..], shift);
      assert Free(patch, edits[0]) == Free(patch[1..], edits[0]) by {
        assert forall k | 0 < k < |patch| :: patch[k] == patch[1..][k - 1];
        if Free(patch, edits[0]) {
          assert Free(patch[1..], edits[0]);
        }
      }
    }
  }

  lemma AllAfter(edits: Patch, h: Edit)
    requires edits != [] && Separated(edits) && Proper(edits) && StartsAfter(edits[0], h)
    ensures forall m | 0 <= m < |edits| :: StartsAfter(edits[m], h)
  {
  }

  /** An edit before the first hunk stands for the same rows of the base, at the same distance. */
  lemma FirstFree<X>(patch: Patch, e: Edit, base: seq<X>, snap: seq<X>, i: int, j: int)
    requires TakesFrom(patch, base, snap, i, j) && Separated(patch)
    requires j <= e.before.start && Within(e.before, snap)
    requires patch == [] || EndsBefore(e, patch[0])
    ensures Free(patch, e) && Moved(patch, e) == 0
    ensures i <= e.before.start - (j - i) && e.before.end - (j - i) <= |base|
    ensures base[i..e.before.start - (j - i)] == snap[j..e.before.start]
    ensures TakesFrom(patch, base, snap, e.before.end - (j - i), e.before.end)
  {
    TakesProper(patch, base, snap, i, j);
    if patch != [] {
      BeforeTheRest(patch, e);
    }
    MovedZero(patch, e);
    if patch == [] {
      assert |base[i..]| == |snap[j..]|;
    }
    Advance(patch, base, snap, i, j, e.before.start - j);
    Advance(patch, base, snap, i, j, e.before.end - j);
  }

  /** What `Transported` does with the first edit, by where that lies. */
  lemma TransportedCases(patch: Patch, edits: Patch, shift: int)
    requires Separated(patch) && Separated(edits)
    ensures patch != [] ==> Separated(patch[1..])
    ensures edits != [] ==> Separated(edits[1..])
    ensures edits == [] ==> Transported(patch, edits, shift) == []
    ensures edits != [] && Free(patch, edits[0]) ==>
      Transported(patch, edits, shift)
      == [Edit(edits[0].before.Shift(-(shift + Moved(patch, edits[0]))), edits[0].after)] + Transported(patch, edits[1..], shift)
    ensures edits != [] && patch != [] && !EndsBefore(edits[0], patch[0]) && !StartsAfter(edits[0], patch[0]) ==>
      Transported(patch, edits, shift) == Transported(patch, edits[1..], shift)
  {
    if patch != [] {
      SeparatedSuffix(patch, 1);
    }
    if edits != [] {
      SeparatedSuffix(edits, 1);
      assert patch != [] && !EndsBefore(edits[0], patch[0]) && !StartsAfter(edits[0], patch[0]) ==>
          Conflicts(edits[0], patch[0]) && !Free(patch, edits[0]);
    }
  }

  // ----- the transported edits lie in the base, in order

  lemma {:induction false} TransportFits<X>(patch: Patch, edits: Patch, base: seq<X>, snap: seq<X>, text: seq<X>, i: int, j: int)
    requires TakesFrom(patch, base, snap, i, j) && Separated(patch)
    requires Fits(edits, snap, text, j) && Separated(edits)
    ensures Fits(Transported(patch, edits, j - i), base, text, i)
    decreases |patch| + |edits|
  {
    hide Separated, Moved, Proper, Free, Conflicts, Transported, EndsBefore, StartsAfter;
    TransportedCases(patch, edits, j - i);
    if edits == [] {
    } else if patch == [] || EndsBefore(edits[0], patch[0]) {
      var e := edits[0];
      FirstFree(patch, e, base, snap, i, j);
      TransportFits(patch, edits[1..], base, snap, text, e.before.end - (j - i), e.before.end);
      ConsFits(Edit(e.before.Shift(-(j - i)), e.after), Transported(patch, edits[1..], j - i), base, text, i);
    } else if StartsAfter(edits[0], patch[0]) {
      var h := patch[0];
      PassHunk(patch, edits, base, snap, text, i, j);
      TransportFits(patch[1..], edits, base, snap, text, h.before.end, h.after.end);
      FitsBack(Transported(patch, edits, j - i), base, text, h.before.end, i);
    } else {
      FitsBack(edits[1..], snap, text, edits[0].before.end, j);
      TransportFits(patch, edits[1..], base, snap, text, i, j);
    }
  }

  /** A hunk before the first edit is passed: the shift takes in its growth. */
  lemma PassHunk<X>(patch: Patch, edits: Patch, base: seq<X>, snap: seq<X>, text: seq<X>, i: int, j: int)
    requires TakesFrom(patch, base, snap, i, j) && patch != []
    requires Fits(edits, snap, text, j) && Separated(edits)
    requires edits != [] ==> StartsAfter(edits[0], patch[0])
    ensures var h := patch[0];
      && h.after.end - h.before.end == j - i + h.Growth()
      && Transported(patch, edits, j - i) == Transported(patch[1..], edits, h.after.end - h.before.end)
      && Blocked(patch, edits) == Blocked(patch[1..], edits)
      && Fits(edits, snap, text, h.after.end)
  {
    assert |base[i..patch[0].before.start]| == |snap[j..patch[0].after.start]|;
    if edits != [] {
      FitsProper(edits, snap, text, j);
      AllAfter(edits, patch[0]);
    }
    DropHunk(patch, edits, j - i);
  }

  lemma ConsFits<X>(e: Edit, rest: Patch, a: seq<X>, b: seq<X>, i: int)
    requires 0 <= i <= e.before.start && Within(e.before, a) && Within(e.after, b) && Fits(rest, a, b, e.before.end)
    ensures Fits([e] + rest, a, b, i)
  {
    assert ([e] + rest)[1..] == rest;
  }

  // ----- edits that reach the end of the text

  /** A free edit reaches the end of the base exactly when it reaches the end of the snapshot. */
  lemma {:induction false} TransportedEndsAlike(patch: Patch, edits: Patch, base: seq<string>, snap: seq<string>, text: seq<string>,
                                                i: int, j: int)
    requires TakesFrom(patch, base, snap, i, j) && Separated(patch)
    requires AllEndAlike(patch, |base|, |snap|)
    requires Fits(edits, snap, text, j) && Separated(edits)
    requires AllEndAlike(edits, |snap|, |text|)
    ensures AllEndAlike(Transported(patch, edits, j - i), |base|, |text|)
    decreases |patch| + |edits|
  {
    hide Separated, Moved, Proper, Free, Conflicts, Transported, EndsBefore, StartsAfter;
    TransportedCases(patch, edits, j - i);
    if edits == [] {
    } else if patch == [] || EndsBefore(edits[0], patch[0]) {
      var e := edits[0];
      FirstFree(patch, e, base, snap, i, j);
      AllEndAlikeTail(edits, |snap|, |text|);
      TransportedEndsAlike(patch, edits[1..], base, snap, text, e.before.end - (j - i), e.before.end);
      EndMeets(patch, base, snap, e.before.end - (j - i), e.before.end);
      AllEndAlikeCons(Edit(e.before.Shift(-(j - i)), e.after), Transported(patch, edits[1..], j - i), |base|, |text|);
    } else if StartsAfter(edits[0], patch[0]) {
      PassHunk(patch, edits, base, snap, text, i, j);
      AllEndAlikeTail(patch, |base|, |snap|);
      TransportedEndsAlike(patch[1..], edits, base, snap, text, patch[0].before.end, patch[0].after.end);
    } else {
      FitsBack(edits[1..], snap, text, edits[0].before.end, j);
      AllEndAlikeTail(edits, |snap|, |text|);
      TransportedEndsAlike(patch, edits[1..], base, snap, text, i, j);
    }
  }

  lemma EndMeets<X>(patch: Patch, base: seq<X>, snap: seq<X>, i: int, j: int)
    requires TakesFrom(patch, base, snap, i, j)
    requires AllEndAlike(patch, |base|, |snap|)
    ensures i == |base| <==> j == |snap|
  {
    if patch == [] {
      assert |base[i..]| == |snap[j..]|;
    } else {
      assert |base[i..patch[0].before.start]| == |snap[j..patch[0].after.start]|;
      assert EndsAlike(patch[0], |base|, |snap|);
    }
  }

  // ----- the two-pointer merge

  /** The first `i` hunks lie before every edit from the `k`th on. */
  predicate AllPassed(patch: Patch, i: nat, edits: Patch, k: nat) {
    && i <= |patch| && k <= |edits|
    && forall l, m | 0 <= l < i && k <= m < |edits| :: StartsAfter(edits[m], patch[l])
  }

  lemma MergeStarts(patch: Patch, edits: Patch, base: seq<string>, snap: seq<string>, text: seq<string>)
    requires IsLineText(base) && IsLineText(snap) && IsLineText(text)
    requires Takes(patch, base, snap) && Separated(patch) && Takes(edits, snap, text) && Separated(edits)
    ensures Remaining(Transported(patch, edits, 0), base, text, [], 0, Transported(patch, edits, 0))
    ensures Proper(patch) && Proper(edits)
  {
    TakesApplies(edits, snap, text, 0, 0);
    TransportFits(patch, edits, base, snap, text, 0, 0);
    TakesEndsAlike(patch, base, snap, 0, 0);
    TakesEndsAlike(edits, snap, text, 0, 0);
    TransportedEndsAlike(patch, edits, base, snap, text, 0, 0);
    TakesProper(patch, base, snap, 0, 0);
    TakesProper(edits, snap, text, 0, 0);
  }

  /** An edit after a hunk leaves the hunk behind for all later edits. */
  lemma PassOne(patch: Patch, i: nat, edits: Patch, k: nat)
    requires Separated(edits) && Proper(edits) && i < |patch|
    requires AllPassed(patch, i, edits, k) && (k < |edits| ==> StartsAfter(edits[k], patch[i]))
    ensures AllPassed(patch, i + 1, edits, k)
  {
  }

  lemma {:induction false} MovedBy(patch: Patch, i: nat, e: Edit)
    requires i <= |patch|
    requires forall l | 0 <= l < |patch| :: StartsAfter(e, patch[l]) <==> l < i
    ensures Moved(patch, e) == TotalGrowth(patch[..i])
  {
    if patch != [] {
      MovedBy(patch[1..], if i > 0 then i - 1 else 0, e);
      assert i > 0 ==> patch[..i][1..] == patch[1..][..i - 1];
    }
  }

  /** An edit past the first hunks and before the others is free. */
  lemma Settled(patch: Patch, i: nat, e: Edit)
    requires Separated(patch) && Proper(patch) && i <= |patch| && e.before.start <= e.before.end
    requires forall l | 0 <= l < i :: StartsAfter(e, patch[l])
    requires i == |patch| || EndsBefore(e, patch[i])
    ensures Free(patch, e) && Moved(patch, e) == TotalGrowth(patch[..i])
  {
    MovedBy(patch, i, e);
  }

  ghost predicate Skipped(patch: Patch, edits: Patch, k: nat, k': nat) {
    k <= k' <= |edits| && forall m | k <= m < k' :: !Free(patch, edits[m])
  }

  lemma {:induction false} SkippedAreDropped(patch: Patch, edits: Patch, k: nat, k': nat)
    requires Skipped(patch, edits, k, k')
    ensures Transported(patch, edits[k..], 0) == Transported(patch, edits[k'..], 0)
    decreases k' - k
  {
    if k < k' {
      assert edits[k..][1..] == edits[k + 1..];
      SkippedAreDropped(patch, edits, k + 1, k');
    }
  }

  /** Passes all the hunks that are before the new edit `edits[k]` or that intersect with it, and the edits that
      intersect with those. The new edit is then `edits[next - 1]`. */
  method PushOldEdits(patch: Patch, edits: Patch, k: nat, i: nat, rebasedDelta: int)
    returns (next: nat, hunk: nat, delta: int, conflict: bool)
    requires Separated(patch) && Separated(edits) && Proper(patch) && Proper(edits)
    requires k < |edits| && i <= |patch| && AllPassed(patch, i, edits, k) && rebasedDelta == TotalGrowth(patch[..i])
    ensures k < next <= |edits| && hunk <= |patch| && AllPassed(patch, hunk, edits, next) && delta == TotalGrowth(patch[..hunk])
    ensures Skipped(patch, edits, k, next - 1)
    ensures conflict <==> !Free(patch, edits[next - 1])
    ensures !conflict ==> Moved(patch, edits[next - 1]) == delta
    ensures conflict <==> MeetsAny(patch, edits[next - 1])
    ensures forall m | k <= m < next - 1 :: MeetsAny(patch, edits[m])
  {
    hide Separated, Moved, Transported;
    next, hunk, delta, conflict := k + 1, i, rebasedDelta, false;
    var newEdit := edits[k];
    while hunk < |patch|
      invariant k < next <= |edits| && newEdit == edits[next - 1] && Scanning(patch, edits, k, next, hunk, delta, conflict)
      decreases |edits| - next, |patch| - hunk
    {
      var oldEdit := patch[hunk];
      if EndsBefore(newEdit, oldEdit) {
        break;
      } else if StartsAfter(newEdit, oldEdit) {
        PassAfter(patch, edits, k, next, hunk, delta, conflict);
        delta := delta + oldEdit.Growth();
        hunk := hunk + 1;
      } else {
        if next < |edits| && edits[next].before.Overlaps(oldEdit.after) {
          SkipConflicting(patch, edits, k, next, hunk, delta, conflict);
          newEdit := edits[next];
          next := next + 1;
        } else {
          PassConflicting(patch, edits, k, next, hunk, delta, conflict);
          delta := delta + oldEdit.Growth();
          hunk := hunk + 1;
        }
        conflict := true;
      }
    }
    if !conflict {
      Settled(patch, hunk, newEdit);
    }
    MeetsInRows(patch, edits);
  }

  lemma MeetsInRows(patch: Patch, edits: Patch)
    requires Proper(patch) && Proper(edits)
    ensures forall m | 0 <= m < |edits| :: Free(patch, edits[m]) <==> !MeetsAny(patch, edits[m])
  {
    forall m | 0 <= m < |edits| ensures Free(patch, edits[m]) <==> !MeetsAny(patch, edits[m]) {
      FreeInRows(patch, edits[m]);
    }
  }

  /** Where the scan for the hunks around `edits[k' - 1]` has got to. */
  ghost predicate Scanning(patch: Patch, edits: Patch, k: nat, k': nat, i: nat, rebasedDelta: int, conflict: bool) {
    && k < k' && Skipped(patch, edits, k, k' - 1) && k' <= |edits|
    && AllPassed(patch, i, edits, if conflict then k' else k' - 1)
    && rebasedDelta == TotalGrowth(patch[..i])
    && (conflict ==> !Free(patch, edits[k' - 1]))
  }

  /** A hunk before the new edit is before all later edits. */
  lemma PassAfter(patch: Patch, edits: Patch, k: nat, k': nat, i: nat, rebasedDelta: int, conflict: bool)
    requires Separated(edits) && Proper(edits) && i < |patch|
    requires Scanning(patch, edits, k, k', i, rebasedDelta, conflict) && StartsAfter(edits[k' - 1], patch[i])
    ensures Scanning(patch, edits, k, k', i + 1, rebasedDelta + patch[i].Growth(), conflict)
  {
    TotalGrowthStep(patch, i);
    PassOne(patch, i, edits, if conflict then k' else k' - 1);
  }

  /** A hunk that conflicts with the new edit, but does not overlap the next one, is before all later edits. */
  lemma PassConflicting(patch: Patch, edits: Patch, k: nat, k': nat, i: nat, rebasedDelta: int, conflict: bool)
    requires Separated(edits) && Proper(edits) && Proper(patch) && i < |patch|
    requires Scanning(patch, edits, k, k', i, rebasedDelta, conflict) && Conflicts(edits[k' - 1], patch[i])
    requires k' == |edits| || !edits[k'].before.Overlaps(patch[i].after)
    ensures Scanning(patch, edits, k, k', i + 1, rebasedDelta + patch[i].Growth(), true)
  {
    TotalGrowthStep(patch, i);
    PassOne(patch, i, edits, k');
  }

  /** An edit that conflicts with a hunk is dropped for the next one, when that overlaps the hunk too. */
  lemma SkipConflicting(patch: Patch, edits: Patch, k: nat, k': nat, i: nat, rebasedDelta: int, conflict: bool)
    requires i < |patch| && k' < |edits|
    requires Scanning(patch, edits, k, k', i, rebasedDelta, conflict) && Conflicts(edits[k' - 1], patch[i])
    requires edits[k'].before.Overlaps(patch[i].after)
    ensures Scanning(patch, edits, k, k' + 1, i, rebasedDelta, true)
  {
    assert Conflicts(edits[k'], patch[i]);
  }

  /** The free edits among the first `k` have been applied to the base `was`, which now has the rows `cur`: `done` is what
      they made of `was[..last]`. Later rows have moved by `delta`. */
  ghost predicate Merging(patch: Patch, edits: Patch, k: nat, was: seq<string>, text: seq<string>, cur: seq<string>,
                          delta: int, done: seq<string>, last: int)
  {
    && k <= |edits| && 0 <= last <= |was| && cur == done + was[last..] && delta == |done| - last
    && Remaining(Transported(patch, edits[k..], 0), was, text, done, last, Transported(patch, edits, 0))
  }

  lemma MergingStarts(patch: Patch, edits: Patch, was: seq<string>, text: seq<string>)
    requires Remaining(Transported(patch, edits, 0), was, text, [], 0, Transported(patch, edits, 0))
    ensures Merging(patch, edits, 0, was, text, was, 0, [], 0)
  {
    assert edits[0..] == edits && [] + was[0..] == was;
  }

  lemma MergingEnds(patch: Patch, edits: Patch, was: seq<string>, text: seq<string>, cur: seq<string>, delta: int,
                    done: seq<string>, last: int)
    requires Merging(patch, edits, |edits|, was, text, cur, delta, done, last)
    ensures Fits(Transported(patch, edits, 0), was, text, 0) && cur == Apply(Transported(patch, edits, 0), was, text)
    ensures Transported(patch, edits[|edits|..], 0) == []
  {
    RemainingEnds(was, text, done, last, Transported(patch, edits, 0));
  }

  /** A blocked edit leaves what is to be done as it is, a free one is the next to be applied. */
  lemma MergeStep(patch: Patch, edits: Patch, first: nat, k: nat)
    requires first < k && Skipped(patch, edits, first, k - 1) && k <= |edits|
    ensures var todo, rest := Transported(patch, edits[first..], 0), Transported(patch, edits[k..], 0);
      if Free(patch, edits[k - 1])
      then todo == [Edit(edits[k - 1].before.Shift(-Moved(patch, edits[k - 1])), edits[k - 1].after)] + rest
      else todo == rest
  {
    hide Free, Moved;
    SkippedAreDropped(patch, edits, first, k - 1);
    assert edits[k - 1..][1..] == edits[k..];
  }

  /** Nothing changes when the next edit is blocked. */
  lemma MergingSkips(patch: Patch, edits: Patch, first: nat, k: nat, was: seq<string>, text: seq<string>, cur: seq<string>,
                     delta: int, done: seq<string>, last: int)
    requires first < k && Skipped(patch, edits, first, k - 1) && k <= |edits| && !Free(patch, edits[k - 1])
    requires Merging(patch, edits, first, was, text, cur, delta, done, last)
    ensures Merging(patch, edits, k, was, text, cur, delta, done, last)
    ensures Transported(patch, edits[k..], 0) == Transported(patch, edits[first..], 0)
  {
    hide Free, Remaining, Skipped, Transported;
    MergeStep(patch, edits, first, k);
  }

  /** Applies the free edit `edits[k - 1]` where its rows lie in the base now. */
  method MergeOne(oldText: Rope, newEdit: Edit, appliedDelta: int, rebasedDelta: int, newText: string, ghost patch: Patch,
                  ghost edits: Patch, ghost first: nat, ghost k: nat, ghost was: seq<string>, ghost done: seq<string>, ghost last: int)
    returns (ghost done': seq<string>, ghost last': int)
    requires first < k && Skipped(patch, edits, first, k - 1) && k <= |edits| && newEdit == edits[k - 1]
    requires Free(patch, newEdit) && Moved(patch, newEdit) == rebasedDelta
    requires Merging(patch, edits, first, was, Rows(newText), Rows(oldText.text), appliedDelta, done, last)
    modifies oldText
    ensures Merging(patch, edits, k, was, Rows(newText), Rows(oldText.text), appliedDelta + newEdit.Growth(), done', last')
    ensures Transported(patch, edits[first..], 0) != []
  {
    hide Free, Moved, Rows, Remaining, EndsAlike, IsLineText, Skipped, Transported;
    MergeStep(patch, edits, first, k);
    ghost var todo, text := Transported(patch, edits[first..], 0), Rows(newText);
    ghost var e := todo[0];
    RemainingStep(todo, was, text, done, last, Transported(patch, edits, 0));
    assert todo[1..] == Transported(patch, edits[k..], 0);
    var start := newEdit.before.start + appliedDelta - rebasedDelta;
    var end := newEdit.before.end + appliedDelta - rebasedDelta;
    ReplaceEdit(oldText, start, end, newText, newEdit.after, e, done, was, last);
    done', last' := done + was[last..e.before.start] + Slice(text, e.after), e.before.end;
  }

  /** Applies to `oldText`, in place, the edits that conflict with no hunk of `patch`. `snapshot` is the text between. */
  method ApplyNonConflictingEdits(patch: Patch, edits: Patch, oldText: Rope, ghost snapshot: string, newText: string)
    returns (hasMadeChanges: bool)
    requires Takes(patch, Rows(oldText.text), Rows(snapshot)) && Separated(patch)
    requires Takes(edits, Rows(snapshot), Rows(newText)) && Separated(edits)
    modifies oldText
    ensures Fits(Transported(patch, edits, 0), old(Rows(oldText.text)), Rows(newText), 0)
    ensures Rows(oldText.text) == Apply(Transported(patch, edits, 0), old(Rows(oldText.text)), Rows(newText))
    ensures Transported(patch, edits, 0) == InBase(patch, edits)
    ensures hasMadeChanges <==> Transported(patch, edits, 0) != []
  {
    hide Rows, Separated, Takes, TakesFrom, Fits, Apply, ApplyFrom, Remaining, IsLineText, Transported, Free, Moved, AllPassed, Skipped,
      Merging;
    ghost var was, text := Rows(oldText.text), Rows(newText);
    RowsAreLineText(oldText.text);
    RowsAreLineText(snapshot);
    RowsAreLineText(newText);
    MergeStarts(patch, edits, was, Rows(snapshot), text);
    MergingStarts(patch, edits, was, text);
    NonePassed(patch, edits);
    var k: nat, i: nat := 0, 0;
    var appliedDelta, rebasedDelta := 0, 0;
    hasMadeChanges := false;
    ghost var done: seq<string>, last := [], 0;
    assert edits[0..] == edits;
    while k < |edits|
      invariant k <= |edits| && AllPassed(patch, i, edits, k) && i <= |patch| && rebasedDelta == TotalGrowth(patch[..i])
      invariant Merging(patch, edits, k, was, text, Rows(oldText.text), appliedDelta, done, last)
      invariant hasMadeChanges ==> Transported(patch, edits, 0) != []
      invariant !hasMadeChanges ==> Transported(patch, edits[k..], 0) == Transported(patch, edits, 0)
    {
      ghost var first := k;
      var conflict;
      k, i, rebasedDelta, conflict := PushOldEdits(patch, edits, k, i, rebasedDelta);
      var newEdit := edits[k - 1];
      if conflict {
        MergingSkips(patch, edits, first, k, was, text, Rows(oldText.text), appliedDelta, done, last);
      } else {
        done, last := MergeOne(oldText, newEdit, appliedDelta, rebasedDelta, newText, patch, edits, first, k, was, done, last);
        appliedDelta := appliedDelta + newEdit.Growth();
        hasMadeChanges := true;
      }
    }
    MergingEnds(patch, edits, was, text, Rows(oldText.text), appliedDelta, done, last);
    TransportedInRows(patch, edits);
  }

  lemma NonePassed(patch: Patch, edits: Patch)
    ensures AllPassed(patch, 0, edits, 0) && TotalGrowth(patch[..0]) == 0
  {
  }
}
