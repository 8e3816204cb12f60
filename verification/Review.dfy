/** Accepting hunks under review: by row range, or because they were committed. */
module Review {
  import opened LineText
  import opened Patches
  import opened RowPatches

  // ----- what is left after some hunks are accepted

  predicate AllFrom(p: Patch, x: int) {
    forall k | 0 <= k < |p| :: x < p[k].after.start
  }

  lemma {:induction false} LeaveFrom(p: Patch, f: Edit -> bool, d: int, x: int)
    requires AllFrom(p, x)
    ensures AllFrom(Leave(p, f, d), x)
  {
    if p != [] {
      LeaveFrom(p[1..], f, if f(p[0]) then d + p[0].Growth() else d, x);
    }
  }

  predicate SeparatedAfter(p: Patch) {
    forall k, m | 0 <= k < m < |p| :: p[k].after.end < p[m].after.start
  }

  lemma {:induction false} LeaveSeparatedAfter(p: Patch, f: Edit -> bool, d: int)
    requires SeparatedAfter(p)
    ensures SeparatedAfter(Leave(p, f, d))
  {
    if p != [] {
      var d' := if f(p[0]) then d + p[0].Growth() else d;
      LeaveSeparatedAfter(p[1..], f, d');
      LeaveFrom(p[1..], f, d', p[0].after.end);
      ConsSeparatedAfter(Edit(p[0].before.Shift(d), p[0].after), Leave(p[1..], f, d'));
    }
  }

  lemma ConsSeparatedAfter(e: Edit, p: Patch)
    requires SeparatedAfter(p) && AllFrom(p, e.after.end)
    ensures SeparatedAfter([e] + p)
  {
    var q := [e] + p;
    forall k, m | 0 <= k < m < |q| ensures q[k].after.end < q[m].after.start {
      assert q[m] == p[m - 1];
      assert k > 0 ==> q[k] == p[k - 1];
    }
  }

  /** Edits apart in the target are apart in the base, since the stretches between them are the same. */
  lemma {:induction false} TakesSeparated<X>(p: Patch, a: seq<X>, b: seq<X>, i: int, j: int)
    requires TakesFrom(p, a, b, i, j) && SeparatedAfter(p)
    ensures Separated(p)
    ensures forall k | 0 <= k < |p| :: i <= p[k].before.start
  {
    if p != [] {
      assert forall k, m | 0 <= k < m < |p[1..]| :: p[1..][k] == p[k + 1] && p[1..][m] == p[m + 1];
      TakesSeparated(p[1..], a, b, p[0].before.end, p[0].after.end);
      if |p| > 1 {
        assert p[1..][0] == p[1];
        assert |a[p[0].before.end..p[1].before.start]| == |b[p[0].after.end..p[1].after.start]|;
      }
      forall k, m | 0 <= k < m < |p| ensures p[k].before.end < p[m].before.start {
        assert p[m] == p[1..][m - 1];
        if k == 0 {
          assert m > 1 ==> p[1..][0].before.end < p[1..][m - 1].before.start;
        } else {
          assert p[k] == p[1..][k - 1];
        }
      }
      forall k | 0 <= k < |p| ensures i <= p[k].before.start {
        assert k > 0 ==> p[k] == p[1..][k - 1];
      }
    }
  }

  /** Accepting any hunks leaves a separated patch from the new base to the same text, and a line text as base. */
  lemma AcceptRows(p: Patch, f: Edit -> bool, base: seq<string>, snap: seq<string>)
    requires IsLineText(base) && IsLineText(snap) && Takes(p, base, snap) && Separated(p)
    ensures Remaining(Pick(p, f), base, snap, [], 0, Pick(p, f))
    ensures Takes(Leave(p, f, 0), Apply(Pick(p, f), base, snap), snap)
    ensures Separated(Leave(p, f, 0))
    ensures |Apply(Pick(p, f), base, snap)| - |base| == TotalGrowth(Pick(p, f))
  {
    Accept(p, f, base, snap);
    TakesEndsAlike(p, base, snap, 0, 0);
    PickEndsAlike(p, f, |base|, |snap|);
    LeaveSeparatedAfter(p, f, 0);
    TakesSeparated(Leave(p, f, 0), Apply(Pick(p, f), base, snap), snap, 0, 0);
  }

  lemma {:induction false} PickEndsAlike(p: Patch, f: Edit -> bool, a: int, b: int)
    requires AllEndAlike(p, a, b)
    ensures AllEndAlike(Pick(p, f), a, b)
  {
    if p != [] {
      PickEndsAlike(p[1..], f, a, b);
    }
  }

  // ----- folding hunks into the base, in place

  /** The hunks `f` selects among the first `i` of `p` have been folded into the base `was`, which now has the rows `cur`:
      `done` is what they made of `was[..last]`. Later rows have moved by `delta`. */
  ghost predicate Folding(p: Patch, i: nat, f: Edit -> bool, was: seq<string>, text: seq<string>, cur: seq<string>,
                          delta: int, done: seq<string>, last: int)
  {
    && i <= |p| && 0 <= last <= |was| && cur == done + was[last..] && delta == |done| - last
    && Remaining(Pick(p[i..], f), was, text, done, last, Pick(p, f))
  }

  lemma FoldingStarts(p: Patch, f: Edit -> bool, was: seq<string>, text: seq<string>)
    requires Remaining(Pick(p, f), was, text, [], 0, Pick(p, f))
    ensures Folding(p, 0, f, was, text, was, 0, [], 0)
  {
    assert p[0..] == p && [] + was[0..] == was;
  }

  lemma FoldingSkips(p: Patch, i: nat, f: Edit -> bool, was: seq<string>, text: seq<string>, cur: seq<string>,
                     delta: int, done: seq<string>, last: int)
    requires i < |p| && !f(p[i]) && Folding(p, i, f, was, text, cur, delta, done, last)
    ensures Folding(p, i + 1, f, was, text, cur, delta, done, last)
  {
    hide Remaining;
    PickNext(p, i, f, 0);
  }

  lemma FoldingEnds(p: Patch, i: nat, f: Edit -> bool, was: seq<string>, text: seq<string>, cur: seq<string>,
                    delta: int, done: seq<string>, last: int)
    requires i <= |p| && Pick(p[i..], f) == [] && Folding(p, i, f, was, text, cur, delta, done, last)
    ensures Fits(Pick(p, f), was, text, 0) && cur == Apply(Pick(p, f), was, text)
  {
    RemainingEnds(was, text, done, last, Pick(p, f));
  }

  /** Folds the next selected hunk into `base`. */
  method FoldHunk(base: Rope, hunk: Edit, delta: int, snapshot: string, ghost p: Patch, ghost i: nat, ghost f: Edit -> bool,
                  ghost was: seq<string>, ghost done: seq<string>, ghost last: int)
    returns (ghost done': seq<string>, ghost last': int)
    requires i < |p| && hunk == p[i] && f(hunk)
    requires Folding(p, i, f, was, Rows(snapshot), Rows(base.text), delta, done, last)
    modifies base
    ensures Folding(p, i + 1, f, was, Rows(snapshot), Rows(base.text), delta + hunk.Growth(), done', last')
  {
    hide Rows, Remaining, EndsAlike, IsLineText, Pick, Leave, LinesAdded, LinesRemoved;
    PickNext(p, i, f, 0);
    RemainingStep(Pick(p[i..], f), was, Rows(snapshot), done, last, Pick(p, f));
    ReplaceEdit(base, hunk.before.start + delta, hunk.before.end + delta, snapshot, hunk.after, hunk, done, was, last);
    done', last' := done + was[last..hunk.before.start] + Slice(Rows(snapshot), hunk.after), hunk.before.end;
  }

  // ----- accepting a row range

  /** The hunks that the rows `rows` touch. */
  function Touched(rows: Span): Edit -> bool {
    (e: Edit) => !(rows.end < e.after.start || rows.start > e.after.end)
  }

  function LinesAdded(p: Patch): int {
    if p == [] then 0 else p[0].after.Len() + LinesAdded(p[1..])
  }

  function LinesRemoved(p: Patch): int {
    if p == [] then 0 else p[0].before.Len() + LinesRemoved(p[1..])
  }

  lemma {:induction false} LinesBalance(p: Patch)
    ensures LinesAdded(p) - LinesRemoved(p) == TotalGrowth(p)
  {
    if p != [] {
      LinesBalance(p[1..]);
    }
  }

  /** Accepts the hunks that touch the given rows of the buffer into `base`, in place. `added` and `removed` are what
      telemetry reports: the base grows by exactly their difference. */
  method KeepInRange(base: Rope, unreviewed: Patch, snapshot: string, rows: Span)
    returns (left: Patch, added: int, removed: int)
    requires Takes(unreviewed, Rows(base.text), Rows(snapshot)) && Separated(unreviewed)
    modifies base
    ensures Fits(Pick(unreviewed, Touched(rows)), old(Rows(base.text)), Rows(snapshot), 0)
    ensures Rows(base.text) == Apply(Pick(unreviewed, Touched(rows)), old(Rows(base.text)), Rows(snapshot))
    ensures left == Leave(unreviewed, Touched(rows), 0)
    ensures Takes(left, Rows(base.text), Rows(snapshot)) && Separated(left)
    ensures added == LinesAdded(Pick(unreviewed, Touched(rows))) && removed == LinesRemoved(Pick(unreviewed, Touched(rows)))
    ensures |Rows(base.text)| - |old(Rows(base.text))| == added - removed
  {
    hide Rows, Separated, Takes, TakesFrom, Fits, Apply, ApplyFrom, Folding, Remaining, IsLineText, Pick, Leave, LinesAdded, LinesRemoved,
      TotalGrowth, Touched;
    ghost var was, text, f := Rows(base.text), Rows(snapshot), Touched(rows);
    RowsAreLineText(base.text);
    RowsAreLineText(snapshot);
    AcceptRows(unreviewed, f, was, text);
    LinesBalance(Pick(unreviewed, f));
    left, added, removed := [], 0, 0;
    var delta := 0;
    ghost var done: seq<string>, last := [], 0;
    FoldingStarts(unreviewed, f, was, text);
    assert unreviewed[0..] == unreviewed;
    for k := 0 to |unreviewed|
      invariant Folding(unreviewed, k, f, was, text, Rows(base.text), delta, done, last)
      invariant left + Leave(unreviewed[k..], f, delta) == Leave(unreviewed, f, 0)
      invariant added + LinesAdded(Pick(unreviewed[k..], f)) == LinesAdded(Pick(unreviewed, f))
      invariant removed + LinesRemoved(Pick(unreviewed[k..], f)) == LinesRemoved(Pick(unreviewed, f))
    {
      PickNext(unreviewed, k, f, delta);
      TouchesRows(rows, unreviewed[k]);
      var edit := Edit(unreviewed[k].before.Shift(delta), unreviewed[k].after);
      if rows.end < edit.after.start || rows.start > edit.after.end {
        FoldingSkips(unreviewed, k, f, was, text, Rows(base.text), delta, done, last);
        left := left + [edit];
      } else {
        done, last := FoldHunk(base, unreviewed[k], delta, snapshot, unreviewed, k, f, was, done, last);
        delta := delta + edit.Growth();
        added := added + edit.after.Len();
        removed := removed + edit.before.Len();
      }
    }
    PickNone(unreviewed, f, delta);
    FoldingEnds(unreviewed, |unreviewed|, f, was, text, Rows(base.text), delta, done, last);
  }

  lemma TouchesRows(rows: Span, e: Edit)
    ensures Touched(rows)(e) <==> !(rows.end < e.after.start || rows.start > e.after.end)
  {
  }

  lemma PickNext(p: Patch, k: nat, f: Edit -> bool, d: int)
    requires k < |p|
    ensures f(p[k]) ==>
      && Pick(p[k..], f) == [p[k]] + Pick(p[k + 1..], f) && Pick(p[k..], f)[1..] == Pick(p[k + 1..], f)
      && Leave(p[k..], f, d) == Leave(p[k + 1..], f, d + p[k].Growth())
      && LinesAdded(Pick(p[k..], f)) == p[k].after.Len() + LinesAdded(Pick(p[k + 1..], f))
      && LinesRemoved(Pick(p[k..], f)) == p[k].before.Len() + LinesRemoved(Pick(p[k + 1..], f))
    ensures !f(p[k]) ==>
      && Pick(p[k..], f) == Pick(p[k + 1..], f)
      && Leave(p[k..], f, d) == [Edit(p[k].before.Shift(d), p[k].after)] + Leave(p[k + 1..], f, d)
  {
    assert p[k..][1..] == p[k + 1..];
  }

  lemma PickNone(p: Patch, f: Edit -> bool, d: int)
    ensures Pick(p[|p|..], f) == [] && Leave(p[|p|..], f, d) == []
    ensures LinesAdded([]) == 0 && LinesRemoved([]) == 0
  {
  }

  // ----- accepting committed hunks

  /** The hunks that `committed`, the row edits from the base to the committed text, contains with the same rows. */
  function IsCommitted(committed: Patch, snapshot: string, gitBase: string): Edit -> bool {
    (e: Edit) => exists k | 0 <= k < |committed| :: SameChange(committed[k], e, snapshot, gitBase)
  }

  predicate SameChange(c: Edit, e: Edit, snapshot: string, gitBase: string) {
    && c.before == e.before
    && 0 <= e.after.start <= e.after.end && 0 <= c.after.start <= c.after.end
    && RowSlice(snapshot, e.after.start, e.after.end) == RowSlice(gitBase, c.after.start, c.after.end)
  }

  /** Accepts into `base` the hunks that were committed. */
  method KeepCommitted(base: Rope, unreviewed: Patch, snapshot: string, committed: Patch, gitBase: string)
    requires Takes(unreviewed, Rows(base.text), Rows(snapshot)) && Separated(unreviewed)
    requires Separated(committed) && Proper(committed)
    requires forall k | 0 <= k < |committed| :: 0 <= committed[k].after.start
    modifies base
    ensures Fits(Pick(unreviewed, IsCommitted(committed, snapshot, gitBase)), old(Rows(base.text)), Rows(snapshot), 0)
    ensures Rows(base.text)
         == Apply(Pick(unreviewed, IsCommitted(committed, snapshot, gitBase)), old(Rows(base.text)), Rows(snapshot))
    ensures Takes(Leave(unreviewed, IsCommitted(committed, snapshot, gitBase), 0), Rows(base.text), Rows(snapshot))
    ensures Separated(Leave(unreviewed, IsCommitted(committed, snapshot, gitBase), 0))
  {
    hide Rows, Separated, TakesFrom, Fits, Apply, ApplyFrom, Folding, Remaining, IsLineText, Pick, Leave, IsCommitted, RowSlice, RowStart,
      SameChange, LinesAdded, LinesRemoved, TotalGrowth;
    ghost var was, text, f := Rows(base.text), Rows(snapshot), IsCommitted(committed, snapshot, gitBase);
    RowsAreLineText(base.text);
    RowsAreLineText(snapshot);
    AcceptRows(unreviewed, f, was, text);
    TakesProper(unreviewed, was, text, 0, 0);
    var i: nat, rowDelta := 0, 0;
    ghost var done: seq<string>, last := [], 0;
    FoldingStarts(unreviewed, f, was, text);
    var k: nat := 0;
    while k < |committed|
      invariant k <= |committed| && i <= |unreviewed| && NoMatches(committed, k, unreviewed, i)
      invariant Folding(unreviewed, i, f, was, text, Rows(base.text), rowDelta, done, last)
    {
      var c := committed[k];
      while i < |unreviewed|
        invariant i <= |unreviewed| && NoMatches(committed, k, unreviewed, i)
        invariant Folding(unreviewed, i, f, was, text, Rows(base.text), rowDelta, done, last)
        decreases |unreviewed| - i
      {
        var u := unreviewed[i];
        if c.before == u.before {
          MatchDecides(committed, k, u, snapshot, gitBase);
          if RowSlice(snapshot, u.after.start, u.after.end) == RowSlice(gitBase, c.after.start, c.after.end) {
            done, last := FoldHunk(base, u, rowDelta, snapshot, unreviewed, i, f, was, done, last);
            rowDelta := rowDelta + u.Growth();
          } else {
            FoldingSkips(unreviewed, i, f, was, text, Rows(base.text), rowDelta, done, last);
          }
        } else if u.before.start >= c.before.end {
          break;
        } else {
          NeverCommitted(committed, k, unreviewed, i, snapshot, gitBase);
          FoldingSkips(unreviewed, i, f, was, text, Rows(base.text), rowDelta, done, last);
        }
        i := i + 1;
      }
      PassCommitted(committed, k, unreviewed, i);
      k := k + 1;
    }
    RestNotCommitted(committed, unreviewed, i, snapshot, gitBase);
    FoldingEnds(unreviewed, i, f, was, text, Rows(base.text), rowDelta, done, last);
  }

  /** No hunk from the `i`th on stands for the same base rows as one of the first `k` committed edits. */
  predicate NoMatches(committed: Patch, k: nat, unreviewed: Patch, i: nat) {
    k <= |committed| && forall l, m | 0 <= l < k && i <= m < |unreviewed| :: committed[l].before != unreviewed[m].before
  }

  lemma MatchDecides(committed: Patch, k: nat, u: Edit, snapshot: string, gitBase: string)
    requires Separated(committed) && Proper(committed) && k < |committed| && 0 <= committed[k].after.start
    requires committed[k].before == u.before && 0 <= u.after.start <= u.after.end
    ensures IsCommitted(committed, snapshot, gitBase)(u)
       <==> RowSlice(snapshot, u.after.start, u.after.end) == RowSlice(gitBase, committed[k].after.start, committed[k].after.end)
  {
    hide RowSlice;
    if IsCommitted(committed, snapshot, gitBase)(u) {
      var m :| 0 <= m < |committed| && SameChange(committed[m], u, snapshot, gitBase);
      assert committed[m].before == committed[k].before;
      assert m == k;
    } else {
      assert !SameChange(committed[k], u, snapshot, gitBase);
    }
  }

  /** A hunk that starts before the end of a committed edit it does not match cannot match a later one. */
  lemma NeverCommitted(committed: Patch, k: nat, unreviewed: Patch, i: nat, snapshot: string, gitBase: string)
    requires Separated(committed) && Proper(committed) && k < |committed| && i < |unreviewed|
    requires NoMatches(committed, k, unreviewed, i) && committed[k].before != unreviewed[i].before
    requires unreviewed[i].before.start < committed[k].before.end
    ensures !IsCommitted(committed, snapshot, gitBase)(unreviewed[i])
  {
    hide RowSlice;
    forall m | 0 <= m < |committed| ensures !SameChange(committed[m], unreviewed[i], snapshot, gitBase) {
    }
  }

  /** A committed edit that ends before the next hunk matches none of the hunks left. */
  lemma PassCommitted(committed: Patch, k: nat, unreviewed: Patch, i: nat)
    requires Separated(unreviewed) && Proper(unreviewed) && Proper(committed) && k < |committed| && i <= |unreviewed|
    requires NoMatches(committed, k, unreviewed, i)
    requires i < |unreviewed| ==>
      committed[k].before != unreviewed[i].before && unreviewed[i].before.start >= committed[k].before.end
    ensures NoMatches(committed, k + 1, unreviewed, i)
  {
    forall m | i < m < |unreviewed| ensures committed[k].before != unreviewed[m].before {
      assert unreviewed[i].before.end < unreviewed[m].before.start;
    }
  }

  lemma {:induction false} RestNotCommitted(committed: Patch, unreviewed: Patch, i: nat, snapshot: string, gitBase: string)
    requires i <= |unreviewed| && NoMatches(committed, |committed|, unreviewed, i)
    ensures Pick(unreviewed[i..], IsCommitted(committed, snapshot, gitBase)) == []
    decreases |unreviewed| - i
  {
    if i < |unreviewed| {
      RestNotCommitted(committed, unreviewed, i + 1, snapshot, gitBase);
      assert unreviewed[i..][1..] == unreviewed[i + 1..];
      assert forall k | 0 <= k < |committed| :: !SameChange(committed[k], unreviewed[i], snapshot, gitBase);
    }
  }
}
