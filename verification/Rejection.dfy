/** Rejecting hunks under review: putting the base text back into the buffer. */
module Rejection {
  import opened LineText
  import opened Patches
  import opened RowPatches
  import opened Review
  import opened Buffers
  import opened Documents
  import opened Anchors

  // ----- which hunks are rejected

  /** Skips the row ranges that end before row `x`. */
  function SkipRanges(ranges: seq<Span>, x: int): seq<Span> {
    if ranges != [] && ranges[0].end < x then SkipRanges(ranges[1..], x) else ranges
  }

  /** For each hunk, which lies on the rows `hunks[k]`, whether the range the scan has got to touches it. */
  function Selected(ranges: seq<Span>, hunks: seq<Span>): (flags: seq<bool>)
    ensures |flags| == |hunks|
    decreases |hunks|
  {
    if hunks == [] then [] else
      var rest := SkipRanges(ranges, hunks[0].start);
      [rest != [] && rest[0].start <= hunks[0].end] + Selected(rest, hunks[1..])
  }

  predicate Touches(range: Span, hunk: Span) {
    !(range.end < hunk.start) && !(range.start > hunk.end)
  }

  predicate SortedByStart(ranges: seq<Span>) {
    forall k, m | 0 <= k < m < |ranges| :: ranges[k].start <= ranges[m].start
  }

  lemma {:induction false} SkipsOnlyEarlier(ranges: seq<Span>, x: int)
    requires SortedByStart(ranges)
    ensures var rest := SkipRanges(ranges, x);
      && SortedByStart(rest) && (rest != [] ==> rest[0].end >= x)
      && (forall k | 0 <= k < |ranges| && ranges[k].end >= x :: ranges[k] in rest)
      && (forall r | r in rest :: r in ranges)
  {
    if ranges != [] && ranges[0].end < x {
      SkipsOnlyEarlier(ranges[1..], x);
      assert forall k | 0 < k < |ranges| :: ranges[k] == ranges[1..][k - 1];
    }
  }

  /** With the ranges sorted by their start, a hunk is rejected exactly if some range touches it. */
  lemma {:induction false} SelectionExact(ranges: seq<Span>, hunks: seq<Span>, k: nat)
    requires SortedByStart(ranges) && SortedByStart(hunks) && k < |hunks|
    decreases k
    ensures Selected(ranges, hunks)[k] <==> exists m | 0 <= m < |ranges| :: Touches(ranges[m], hunks[k])
  {
    var x := hunks[0].start;
    var rest := SkipRanges(ranges, x);
    SkipsOnlyEarlier(ranges, x);
    if k > 0 {
      assert hunks[1..][k - 1] == hunks[k];
      SelectionExact(rest, hunks[1..], k - 1);
      if m :| 0 <= m < |ranges| && Touches(ranges[m], hunks[k]) {
        assert ranges[m] in rest;
        var n :| 0 <= n < |rest| && rest[n] == ranges[m];
        assert Touches(rest[n], hunks[k]);
      }
      if n :| 0 <= n < |rest| && Touches(rest[n], hunks[k]) {
        assert rest[n] in ranges;
        var m :| 0 <= m < |ranges| && ranges[m] == rest[n];
        assert Touches(ranges[m], hunks[k]);
      }
    } else {
      if m :| 0 <= m < |ranges| && Touches(ranges[m], hunks[0]) {
        assert ranges[m] in rest;
        var n :| 0 <= n < |rest| && rest[n] == ranges[m];
        assert rest[0].start <= rest[n].start;
      }
      if rest != [] && rest[0].start <= hunks[0].end {
        assert rest[0] in ranges;
        var m :| 0 <= m < |ranges| && ranges[m] == rest[0];
        assert Touches(ranges[m], hunks[0]);
      }
    }
  }

  // ----- the edits that revert them

  /** A document, the version of it that a snapshot was taken of, and the version it is at now. */
  datatype History = History(doc: Document, was: nat, now: nat) {
    function Snapshot(): string { TextAt(doc, was) }

    function Text(): string { TextAt(doc, now) }

    /** What was shown then is shown now, and nothing else. */
    predicate Unchanged() { SameShown(doc, was, now) }
  }

  /** Where a hunk starts: an anchor in the snapshot, biased to the left. */
  function HunkStart(e: Edit, h: History): nat
    requires 0 <= e.after.start
  {
    AfterChar(h.doc, h.was, RowStart(h.Snapshot(), e.after.start))
  }

  /** ... and where it ends, biased to the right. */
  function HunkEnd(e: Edit, h: History): nat
    requires 0 <= e.after.end
  {
    BeforeChar(h.doc, h.was, RowStart(h.Snapshot(), e.after.end))
  }

  lemma HunkAnchors(e: Edit, h: History)
    requires 0 <= e.after.start <= e.after.end
    ensures HunkStart(e, h) <= HunkEnd(e, h) <= |h.doc|
  {
    hide AfterChar, BeforeChar, RowStart;
    var p, q := RowStart(h.Snapshot(), e.after.start), RowStart(h.Snapshot(), e.after.end);
    RowStartMonotone(h.Snapshot(), e.after.start, e.after.end);
    AnchorsMeet(h.doc, h.was, p);
    AnchorsMeet(h.doc, h.was, q);
    AnchorsAscend(h.doc, h.was, p, q);
  }

  lemma HunksAscend(e: Edit, e': Edit, h: History)
    requires 0 <= e.after.end < e'.after.start < |Rows(h.Snapshot())|
    ensures HunkEnd(e, h) < HunkStart(e', h)
  {
    hide AfterChar, BeforeChar, RowStart;
    RowStartAscends(h.Snapshot(), e.after.end, e'.after.start);
    AnchorsAscend(h.doc, h.was, RowStart(h.Snapshot(), e.after.end), RowStart(h.Snapshot(), e'.after.start));
  }

  /** The characters of the buffer that a hunk covers now. */
  function HunkRange(e: Edit, h: History): (r: Span)
    requires 0 <= e.after.start <= e.after.end
    ensures Within(r, h.Text())
  {
    HunkAnchors(e, h);
    TextSlice(h.doc, h.now, HunkStart(e, h), HunkEnd(e, h));
    Span(Offset(h.doc, h.now, HunkStart(e, h)), Offset(h.doc, h.now, HunkEnd(e, h)))
  }

  predicate Placed(p: Patch) {
    forall k | 0 <= k < |p| :: 0 <= p[k].after.start <= p[k].after.end && 0 <= p[k].before.start <= p[k].before.end
  }

  /** The rows of the buffer that the hunks lie on now. */
  function HunkRows(p: Patch, h: History): (rows: seq<Span>)
    requires Placed(p)
    ensures |rows| == |p|
  {
    if p == [] then []
    else
      var r := HunkRange(p[0], h);
      [Span(RowOf(h.Text(), r.start), RowOf(h.Text(), r.end))] + HunkRows(p[1..], h)
  }

  function Choose(p: Patch, flags: seq<bool>): Patch
    requires |p| == |flags|
  {
    if p == [] then []
    else if flags[0] then [p[0]] + Choose(p[1..], flags[1..])
    else Choose(p[1..], flags[1..])
  }

  /** The buffer edits that put the base rows of the hunks back. */
  function Reverts(p: Patch, base: string, h: History): (edits: Splices)
    requires Placed(p)
    ensures |edits| == |p|
  {
    if p == [] then []
    else [Splice(HunkRange(p[0], h), RowSlice(base, p[0].before.start, p[0].before.end))] + Reverts(p[1..], base, h)
  }

  /** What is remembered of the hunks: the texts that are between their anchors now. */
  function HunkMemos(p: Patch, h: History): (memos: seq<Memo>)
    requires Placed(p)
    ensures |memos| == |p|
  {
    if p == [] then []
    else
      HunkAnchors(p[0], h);
      var start, end := HunkStart(p[0], h), HunkEnd(p[0], h);
      [Memo(start, end, TextAt(h.doc[start..end], h.now))] + HunkMemos(p[1..], h)
  }

  lemma {:induction false} ChoosePlaced(p: Patch, flags: seq<bool>)
    requires |p| == |flags| && Placed(p)
    ensures Placed(Choose(p, flags))
  {
    if p != [] {
      ChoosePlaced(p[1..], flags[1..]);
    }
  }

  lemma {:induction false} ChooseAscends(p: Patch, flags: seq<bool>, n: int)
    requires |p| == |flags| && SeparatedAfter(p) && StartInside(p, n)
    ensures SeparatedAfter(Choose(p, flags)) && StartInside(Choose(p, flags), n)
    ensures forall x :: AllFrom(p, x) ==> AllFrom(Choose(p, flags), x)
  {
    if p != [] {
      ChooseAscends(p[1..], flags[1..], n);
      assert AllFrom(p[1..], p[0].after.end);
      ConsSeparatedAfter(p[0], Choose(p[1..], flags[1..]));
      forall x | AllFrom(p, x) ensures AllFrom(Choose(p, flags), x) {
        assert x < p[0].after.start && AllFrom(p[1..], x);
      }
    }
  }

  /** The reverts are in order in the buffer, whatever has been edited since the snapshot. */
  lemma {:induction false} RevertsInOrder(p: Patch, base: string, h: History, g: nat)
    requires Placed(p) && SeparatedAfter(p) && StartInside(p, |Rows(h.Snapshot())|)
    requires g <= |h.doc| && (p != [] ==> g <= HunkStart(p[0], h))
    ensures InOrder(Reverts(p, base, h), h.Text(), Offset(h.doc, h.now, g))
  {
    hide HunkStart, HunkEnd, Offset, RowSlice, TextAt;
    OffsetSplits(h.doc, h.now, g, |h.doc|);
    if p != [] {
      HunkAnchors(p[0], h);
      OffsetSplits(h.doc, h.now, g, HunkStart(p[0], h));
      if |p| > 1 {
        assert p[0].after.end < p[1].after.start;
        HunksAscend(p[0], p[1], h);
      }
      RevertsInOrder(p[1..], base, h, HunkEnd(p[0], h));
    }
  }

  /** The memos of hunks are apart, and hold what is between their anchors. */
  lemma {:induction false} MemosOfHunks(p: Patch, h: History)
    requires Placed(p) && SeparatedAfter(p) && StartInside(p, |Rows(h.Snapshot())|)
    ensures MemosApart(HunkMemos(p, h), |h.doc|) && Remembers(HunkMemos(p, h), h.doc, h.now)
  {
    hide HunkStart, HunkEnd, HunkMemos, TextAt;
    var memos := HunkMemos(p, h);
    forall k | 0 <= k < |p|
      ensures memos[k].start == HunkStart(p[k], h) && memos[k].end == HunkEnd(p[k], h)
      ensures memos[k].start <= memos[k].end <= |h.doc| && memos[k].text == TextAt(h.doc[memos[k].start..memos[k].end], h.now)
    {
      HunkAnchors(p[k], h);
      HunkMemoAt(p, h, k);
    }
    forall k, m | 0 <= k < m < |p| ensures memos[k].end < memos[m].start {
      assert p[k].after.end < p[m].after.start;
      HunksAscend(p[k], p[m], h);
    }
  }

  lemma {:induction false} HunkMemoAt(p: Patch, h: History, k: nat)
    requires Placed(p) && k < |p|
    ensures HunkStart(p[k], h) <= HunkEnd(p[k], h) <= |h.doc|
    ensures HunkMemos(p, h)[k]
         == Memo(HunkStart(p[k], h), HunkEnd(p[k], h), TextAt(h.doc[HunkStart(p[k], h)..HunkEnd(p[k], h)], h.now))
  {
    HunkAnchors(p[k], h);
    if k > 0 {
      HunkMemoAt(p[1..], h, k - 1);
    }
  }

  lemma {:induction false} RevertAt(p: Patch, base: string, h: History, k: nat)
    requires Placed(p) && k < |p|
    ensures Reverts(p, base, h)[k].range == HunkRange(p[k], h)
  {
    if k > 0 {
      RevertAt(p[1..], base, h, k - 1);
    }
  }

  /** Reverting hunks deletes between their anchors only, where touching edits are merged too. */
  lemma RevertsGoInside(p: Patch, base: string, h: History, front: set<nat>)
    requires Placed(p) && SeparatedAfter(p) && StartInside(p, |Rows(h.Snapshot())|)
    requires InOrder(Reverts(p, base, h), h.Text(), 0)
    ensures GoneInside(h.doc, ChangesOf(h.doc, h.now, Coalesced(Reverts(p, base, h)), front, 0), h.now, HunkMemos(p, h), 0)
  {
    hide HunkStart, HunkEnd, HunkMemos, TextAt, Coalesced, Reverts, InOrder, SpliceFrom, HunkRange, ChangesOf, GoneAt, Offset;
    var edits, memos := Reverts(p, base, h), HunkMemos(p, h);
    var made := Coalesced(edits);
    var changes := ChangesOf(h.doc, h.now, made, front, 0);
    CoalescedInOrder(edits, h.Text(), 0);
    InOrderWithin(made, h.Text(), 0);
    forall c | 0 <= c < |h.doc| && h.doc[c].ShownAt(h.now) && GoneAt(changes, c)
      ensures exists m :: 0 <= m < |memos| && memos[m].start <= c < memos[m].end
    {
      var x := Offset(h.doc, h.now, c);
      GoneIsReplaced(h.doc, h.now, made, front, 0, c);
      CoalescedReplaces(edits, h.Text(), 0, x);
      var m :| 0 <= m < |edits| && edits[m].range.start <= x < edits[m].range.end;
      RevertAt(p, base, h, m);
      HunkMemoAt(p, h, m);
      RangeHolds(p[m], h, c);
    }
  }

  lemma RangeHolds(e: Edit, h: History, c: nat)
    requires 0 <= e.after.start <= e.after.end && c < |h.doc| && h.doc[c].ShownAt(h.now)
    requires HunkRange(e, h).start <= Offset(h.doc, h.now, c) < HunkRange(e, h).end
    ensures HunkStart(e, h) <= c < HunkEnd(e, h)
  {
    hide HunkStart, HunkEnd, Offset;
    HunkAnchors(e, h);
    StepOffset(h.doc, h.now, c);
    if c < HunkStart(e, h) {
      OffsetSplits(h.doc, h.now, c + 1, HunkStart(e, h));
    } else if c >= HunkEnd(e, h) {
      OffsetSplits(h.doc, h.now, HunkEnd(e, h), c);
    }
  }

  /** Where the characters around the hunks are shown, what reverting puts in goes between their anchors. */
  lemma RevertsPutInside(p: Patch, base: string, h: History, front: set<nat>)
    requires Placed(p) && InOrder(Reverts(p, base, h), h.Text(), 0) && AnchorsShown(HunkMemos(p, h), h.doc, h.now)
    ensures AllInside(ChangesOf(h.doc, h.now, Coalesced(Reverts(p, base, h)), front, 0), HunkMemos(p, h))
  {
    hide HunkStart, HunkEnd, HunkMemos, TextAt, Coalesced, Reverts, InOrder, SpliceFrom, ChangesOf, Offset, Covers, AnchorsShown;
    var edits, memos := Reverts(p, base, h), HunkMemos(p, h);
    var made := Coalesced(edits);
    CoalescedInOrder(edits, h.Text(), 0);
    InOrderWithin(made, h.Text(), 0);
    forall k | 0 <= k < |made| ensures Covers(memos, ChangesOf(h.doc, h.now, made, front, 0)[k].at) {
      assert StartsAt(made, made[k].range.start);
      CoalescedStarts(edits, h.Text(), 0, made[k].range.start);
      var m :| 0 <= m < |edits| && edits[m].range.start == made[k].range.start;
      RevertAt(p, base, h, m);
      HunkMemoAt(p, h, m);
      ChangesAt(h.doc, h.now, made, front, 0, k);
      ShownAnchorsCover(h.doc, h.now, memos, m, made[k], k in front);
    }
  }

  /** Nothing that the snapshot shows has been deleted since. */
  predicate NothingDeleted(h: History) {
    forall k | 0 <= k < |h.doc| && h.doc[k].ShownAt(h.was) :: h.doc[k].ShownAt(h.now)
  }

  lemma HunksShown(p: Patch, h: History)
    requires Placed(p) && NothingDeleted(h)
    ensures AnchorsShown(HunkMemos(p, h), h.doc, h.now)
  {
    hide HunkMemos, TextAt, AfterChar, BeforeChar, RowStart;
    var memos := HunkMemos(p, h);
    forall k | 0 <= k < |memos|
      ensures memos[k].start <= memos[k].end <= |h.doc|
      ensures memos[k].start == 0 || h.doc[memos[k].start - 1].ShownAt(h.now)
      ensures memos[k].end == |h.doc| || h.doc[memos[k].end].ShownAt(h.now)
    {
      HunkMemoAt(p, h, k);
      AnchorsAreShown(h.doc, h.was, RowStart(h.Snapshot(), p[k].after.start));
      AnchorsAreShown(h.doc, h.was, RowStart(h.Snapshot(), p[k].after.end));
    }
  }

  /** Finds the hunks the ranges touch, the edits that revert them, and what is remembered of them. */
  method RevertHunks(unreviewed: Patch, ranges: seq<Span>, base: string, h: History) returns (edits: Splices, memos: seq<Memo>)
    requires Placed(unreviewed)
    ensures var chosen := Choose(unreviewed, Selected(ranges, HunkRows(unreviewed, h)));
      Placed(chosen) && edits == Reverts(chosen, base, h) && memos == HunkMemos(chosen, h)
  {
    hide Offset, TextAt, RowStart, RowSlice, RowOf, Choose, Selected, Placed, HunkRows, Reverts, HunkRange, HunkMemos, HunkStart,
      HunkEnd;
    edits, memos := [], [];
    var m: nat := 0;
    ghost var chosen := Choose(unreviewed, Selected(ranges, HunkRows(unreviewed, h)));
    ChoosePlaced(unreviewed, Selected(ranges, HunkRows(unreviewed, h)));
    ghost var all, remembered := Reverts(chosen, base, h), HunkMemos(chosen, h);
    assert unreviewed[0..] == unreviewed && ranges[0..] == ranges;
    for k := 0 to |unreviewed|
      invariant m <= |ranges| && Placed(unreviewed[k..]) && Placed(chosen)
      invariant chosen == Choose(unreviewed[k..], Selected(ranges[m..], HunkRows(unreviewed[k..], h)))
      invariant edits + Reverts(chosen, base, h) == all && memos + HunkMemos(chosen, h) == remembered
    {
      var e := unreviewed[k];
      ghost var later := unreviewed[k + 1..];
      assert unreviewed[k..] == [e] + later;
      PlacedCons(e, later);
      HunkAnchors(e, h);
      var newRange := HunkRange(e, h);
      var rows := Span(RowOf(h.Text(), newRange.start), RowOf(h.Text(), newRange.end));
      ghost var hunks := HunkRows(later, h);
      ghost var rest := SkipRanges(ranges[m..], rows.start);
      HunkRowsCons(e, later, h);
      SelectedNext(e, later, ranges[m..], rows, hunks);
      ChoosePlaced(later, Selected(rest, hunks));
      ghost var next := Choose(later, Selected(rest, hunks));
      var revert := false;
      while m < |ranges|
        invariant m <= |ranges| && SkipRanges(ranges[m..], rows.start) == rest && !revert
        decreases |ranges| - m
      {
        assert ranges[m..][1..] == ranges[m + 1..];
        if ranges[m].end < rows.start {
          m := m + 1;
        } else if ranges[m].start > rows.end {
          break;
        } else {
          revert := true;
          break;
        }
      }
      if revert {
        RevertsCons(e, next, base, h);
        var start, end := HunkStart(e, h), HunkEnd(e, h);
        memos := memos + [Memo(start, end, TextAt(h.doc[start..end], h.now))];
        edits := edits + [Splice(newRange, RowSlice(base, e.before.start, e.before.end))];
      }
      chosen := next;
    }
    NoneChosen(base, h);
  }

  lemma PlacedCons(e: Edit, p: Patch)
    ensures Placed([e] + p) <==>
      0 <= e.after.start <= e.after.end && 0 <= e.before.start <= e.before.end && Placed(p)
  {
    var q := [e] + p;
    assert q[0] == e && forall k | 0 <= k < |p| :: p[k] == q[k + 1];
  }

  lemma HunkRowsCons(e: Edit, p: Patch, h: History)
    requires Placed([e] + p) && Placed(p) && 0 <= e.after.start <= e.after.end
    ensures var r := HunkRange(e, h);
      HunkRows([e] + p, h) == [Span(RowOf(h.Text(), r.start), RowOf(h.Text(), r.end))] + HunkRows(p, h)
  {
    assert ([e] + p)[1..] == p;
  }

  lemma RevertsCons(e: Edit, p: Patch, base: string, h: History)
    requires Placed([e] + p) && Placed(p) && 0 <= e.after.start <= e.after.end && 0 <= e.before.start <= e.before.end
    ensures Reverts([e] + p, base, h)
      == [Splice(HunkRange(e, h), RowSlice(base, e.before.start, e.before.end))] + Reverts(p, base, h)
    ensures HunkStart(e, h) <= HunkEnd(e, h) <= |h.doc|
    ensures HunkMemos([e] + p, h)
      == [Memo(HunkStart(e, h), HunkEnd(e, h), TextAt(h.doc[HunkStart(e, h)..HunkEnd(e, h)], h.now))] + HunkMemos(p, h)
  {
    assert ([e] + p)[1..] == p;
    HunkAnchors(e, h);
  }

  lemma NoneChosen(base: string, h: History)
    ensures Choose([], []) == [] && Reverts([], base, h) == [] && HunkMemos([], h) == []
  {
  }

  lemma SelectedNext(e: Edit, p: Patch, ranges: seq<Span>, rows: Span, hunks: seq<Span>)
    requires |hunks| == |p|
    ensures var rest := SkipRanges(ranges, rows.start);
      Choose([e] + p, Selected(ranges, [rows] + hunks))
      == if rest != [] && rest[0].start <= rows.end then [e] + Choose(p, Selected(rest, hunks)) else Choose(p, Selected(rest, hunks))
  {
    assert ([e] + p)[1..] == p && ([rows] + hunks)[1..] == hunks;
    var rest := SkipRanges(ranges, rows.start);
    var flags := Selected(ranges, [rows] + hunks);
    assert flags[1..] == Selected(rest, hunks);
  }

  // ----- what rejecting does

  /** The edits that put rows of `source` in the place of rows of `t`. */
  function SpliceRows(p: Patch, t: string, source: string): Splices
    requires Placed(p)
  {
    if p == [] then []
    else [Splice(Span(RowStart(t, p[0].before.start), RowStart(t, p[0].before.end)), RowSlice(source, p[0].after.start, p[0].after.end))]
         + SpliceRows(p[1..], t, source)
  }

  /** Splicing the characters of rows is splicing the rows. */
  lemma {:induction false} SpliceRowsApply(p: Patch, t: string, source: string, i: nat)
    requires Placed(p) && Fits(p, Rows(t), Rows(source), i)
    ensures InOrder(SpliceRows(p, t, source), t, RowStart(t, i))
    ensures SpliceFrom(SpliceRows(p, t, source), t, RowStart(t, i)) == Flat(ApplyFrom(p, Rows(t), Rows(source), i))
  {
    RowStartSplits(t, i);
    if p != [] {
      var e := p[0];
      SpliceRowsApply(p[1..], t, source, e.before.end);
      RowStartMonotone(t, i, e.before.start);
      RowStartMonotone(t, e.before.start, e.before.end);
      RowSliceFlat(t, i, e.before.start);
      RowSliceFlat(source, e.after.start, e.after.end);
      hide RowStart, RowSlice, Rows;
      var rest := ApplyFrom(p[1..], Rows(t), Rows(source), e.before.end);
      FlatConcat(Rows(t)[i..e.before.start] + Slice(Rows(source), e.after), rest);
      FlatConcat(Rows(t)[i..e.before.start], Slice(Rows(source), e.after));
    }
  }

  /** The hunks that some of the row ranges touch, in a text of `n` rows. */
  function TouchedByAny(ranges: seq<Span>, n: int): Edit -> bool {
    (e: Edit) => exists m | 0 <= m < |ranges| :: Touches(ranges[m], RowsIn(e, n))
  }

  /** The rows of a hunk; one that reaches the end of the text ends in the last row. */
  function RowsIn(e: Edit, n: int): Span {
    Span(e.after.start, if e.after.end < n then e.after.end else n - 1)
  }

  /** Where the same characters are shown as in the snapshot, a hunk covers its own rows. */
  lemma HunkRangeAt(e: Edit, h: History)
    requires 0 <= e.after.start <= e.after.end && h.Unchanged()
    ensures h.Text() == h.Snapshot()
    ensures HunkRange(e, h) == Span(RowStart(h.Snapshot(), e.after.start), RowStart(h.Snapshot(), e.after.end))
  {
    hide AfterChar, BeforeChar, RowStart, TextAt;
    SameText(h.doc, h.was, h.now);
    HunkAnchors(e, h);
    SameText(h.doc[..HunkStart(e, h)], h.was, h.now);
    SameText(h.doc[..HunkEnd(e, h)], h.was, h.now);
    AnchorsMeet(h.doc, h.was, RowStart(h.Snapshot(), e.after.start));
    AnchorsMeet(h.doc, h.was, RowStart(h.Snapshot(), e.after.end));
  }

  /** ... and lies on them. */
  lemma {:induction false} HunkRowsAt(p: Patch, h: History, k: nat)
    requires Placed(p) && StartInside(p, |Rows(h.Snapshot())|) && k < |p| && h.Unchanged()
    requires forall m | 0 <= m < |p| :: p[m].after.end <= |Rows(h.Snapshot())|
    ensures HunkRows(p, h)[k] == RowsIn(p[k], |Rows(h.Snapshot())|)
    decreases k
  {
    if k == 0 {
      RowOfRowStart(h.Snapshot(), p[0].after.start);
      RowOfRowStart(h.Snapshot(), p[0].after.end);
      HunkRangeAt(p[0], h);
    } else {
      assert p[1..][k - 1] == p[k];
      HunkRowsAt(p[1..], h, k - 1);
    }
  }

  lemma {:induction false} RevertsAreSplices(p: Patch, base: string, h: History)
    requires Placed(p) && h.Unchanged()
    ensures Placed(Invert(p)) && Reverts(p, base, h) == SpliceRows(Invert(p), h.Snapshot(), base)
  {
    if p != [] {
      RevertsAreSplices(p[1..], base, h);
      assert Invert(p)[1..] == Invert(p[1..]);
      HunkRangeAt(p[0], h);
    }
  }

  lemma {:induction false} ChooseIsPick(p: Patch, flags: seq<bool>, f: Edit -> bool)
    requires |p| == |flags| && forall k | 0 <= k < |p| :: flags[k] == f(p[k])
    ensures Choose(p, flags) == Pick(p, f)
  {
    if p != [] {
      ChooseIsPick(p[1..], flags[1..], f);
    }
  }

  /** Applying edits that reach the end of both texts or of neither gives a line text. */
  lemma {:induction false} AppliesToLineText(todo: Patch, base: seq<string>, text: seq<string>, done: seq<string>, last: int)
    requires Fits(todo, base, text, last) && AllEndAlike(todo, |base|, |text|)
    requires IsLineText(text) && 0 <= last <= |base| && IsLineText(done + base[last..])
    ensures IsLineText(done + ApplyFrom(todo, base, text, last))
  {
    if todo != [] {
      var e := todo[0];
      SpliceStep(done, base, last, e, text);
      AllEndAlikeTail(todo, |base|, |text|);
      var done' := done + base[last..e.before.start] + Slice(text, e.after);
      AppliesToLineText(todo[1..], base, text, done', e.before.end);
      assert done + ApplyFrom(todo, base, text, last) == done' + ApplyFrom(todo[1..], base, text, e.before.end);
    }
  }

  lemma InvertEndsAlike(p: Patch, a: int, b: int)
    requires AllEndAlike(p, a, b) && forall k | 0 <= k < |p| :: p[k].before.end <= a && p[k].after.end <= b
    requires forall k | 0 <= k < |p| :: p[k].before.start <= a && p[k].after.start <= b
    ensures AllEndAlike(Invert(p), b, a)
  {
  }

  /** Reverting the hunks `f` selects gives the base with the other hunks applied. */
  lemma {:induction false} RevertsApplyTheRest(p: Patch, f: Edit -> bool, base: string, h: History)
    requires Takes(p, Rows(base), Rows(h.Snapshot())) && Separated(p) && h.Unchanged()
    ensures Placed(Pick(p, f)) && Fits(Pick(p, Not(f)), Rows(base), Rows(h.Snapshot()), 0)
    ensures var edits := Reverts(Pick(p, f), base, h);
      && InOrder(edits, h.Snapshot(), 0)
      && Rows(SpliceFrom(edits, h.Snapshot(), 0)) == Apply(Pick(p, Not(f)), Rows(base), Rows(h.Snapshot()))
  {
    hide TextAt, SameShown, Rows, Fits, TakesFrom, IsLineText, AllEndAlike, SpliceFrom, InOrder, Placed, Reverts, Pick, Invert,
      SpliceRows, Separated, Apply;
    var snapshot := h.Snapshot();
    var a, b := Rows(base), Rows(snapshot);
    var q := Invert(Pick(p, f));
    PickedFits(p, f, base, snapshot);
    RevertsAreSplices(Pick(p, f), base, h);
    SpliceRowsApply(q, snapshot, base, 0);
    assert [] + b[0..] == b;
    AppliesToLineText(q, b, a, [], 0);
    assert [] + ApplyFrom(q, b, a, 0) == ApplyFrom(q, b, a, 0);
    RowsFlat(ApplyFrom(q, b, a, 0));
    ApplyIs(q, b, a);
  }

  lemma ApplyIs(p: Patch, a: seq<string>, b: seq<string>)
    requires Fits(p, a, b, 0)
    ensures Apply(p, a, b) == ApplyFrom(p, a, b, 0)
  {
  }

  /** The hunks selected, turned round, apply to the snapshot, and give the base with the other hunks applied. */
  lemma PickedFits(p: Patch, f: Edit -> bool, base: string, snapshot: string)
    requires Takes(p, Rows(base), Rows(snapshot)) && Separated(p)
    ensures var a, b, q := Rows(base), Rows(snapshot), Invert(Pick(p, f));
      && IsLineText(a) && IsLineText(b)
      && Placed(Pick(p, f)) && Fits(q, b, a, 0) && AllEndAlike(q, |b|, |a|)
      && Fits(Pick(p, Not(f)), a, b, 0) && Apply(q, b, a) == Apply(Pick(p, Not(f)), a, b)
    ensures RowStart(snapshot, 0) == 0
  {
    hide Rows, IsLineText, Pick, Invert;
    var a, b := Rows(base), Rows(snapshot);
    RowsAreLineText(base);
    RowsAreLineText(snapshot);
    RejectFrom(p, f, a, b, 0, 0);
    TakesProper(p, a, b, 0, 0);
    PickPlaced(p, f, |a|, |b|);
    TakesEndsAlike(p, a, b, 0, 0);
    PickEndsAlike(p, f, |a|, |b|);
    InvertEndsAlike(Pick(p, f), |a|, |b|);
  }

  lemma {:induction false} PickPlaced(p: Patch, f: Edit -> bool, a: int, b: int)
    requires forall k | 0 <= k < |p| :: 0 <= p[k].before.start <= p[k].before.end <= a && 0 <= p[k].after.start <= p[k].after.end <= b
    ensures forall k | 0 <= k < |Pick(p, f)| ::
      0 <= Pick(p, f)[k].before.start <= Pick(p, f)[k].before.end <= a && 0 <= Pick(p, f)[k].after.start <= Pick(p, f)[k].after.end <= b
    ensures Placed(Pick(p, f))
  {
    if p != [] {
      PickPlaced(p[1..], f, a, b);
    }
  }

  /** Reject is exact: where the buffer shows the characters of the snapshot and the ranges are sorted by start, the hunks
      that some range touches are reverted, and no others; the buffer becomes the base with exactly the other hunks applied. */
  lemma RejectExact(p: Patch, ranges: seq<Span>, base: string, h: History)
    requires Takes(p, Rows(base), Rows(h.Snapshot())) && Separated(p) && StartInside(p, |Rows(h.Snapshot())|)
    requires SortedByStart(ranges) && h.Unchanged()
    ensures Placed(p) && h.Text() == h.Snapshot()
    ensures var f, chosen := TouchedByAny(ranges, |Rows(h.Snapshot())|), Choose(p, Selected(ranges, HunkRows(p, h)));
      && chosen == Pick(p, f) && Placed(chosen)
      && var edits := Coalesced(Reverts(chosen, base, h));
         && InOrder(edits, h.Text(), 0) && Fits(Pick(p, Not(f)), Rows(base), Rows(h.Snapshot()), 0)
         && Rows(SpliceFrom(edits, h.Text(), 0)) == Apply(Pick(p, Not(f)), Rows(base), Rows(h.Snapshot()))
  {
    hide SameShown, TextAt;
    var n, f := |Rows(h.Snapshot())|, TouchedByAny(ranges, |Rows(h.Snapshot())|);
    TakesProper(p, Rows(base), Rows(h.Snapshot()), 0, 0);
    SameText(h.doc, h.was, h.now);
    var rows := HunkRows(p, h);
    forall k | 0 <= k < |p| ensures rows[k] == RowsIn(p[k], n) {
      HunkRowsAt(p, h, k);
    }
    assert SortedByStart(rows) by {
      assert forall k, m | 0 <= k < m < |p| :: p[k].after.end < p[m].after.start;
    }
    forall k | 0 <= k < |p| ensures Selected(ranges, rows)[k] == f(p[k]) {
      SelectionExact(ranges, rows, k);
    }
    ChooseIsPick(p, Selected(ranges, rows), f);
    RevertsApplyTheRest(p, f, base, h);
    CoalescedInOrder(Reverts(Pick(p, f), base, h), h.Text(), 0);
  }

  /** Selecting every hunk gives back the base. */
  lemma RejectAllRestoresBase(p: Patch, base: string, h: History)
    requires Takes(p, Rows(base), Rows(h.Snapshot())) && Separated(p) && StartInside(p, |Rows(h.Snapshot())|) && h.Unchanged()
    ensures Placed(p)
    ensures var edits := Coalesced(Reverts(p, base, h));
      InOrder(edits, h.Text(), 0) && SpliceFrom(edits, h.Text(), 0) == base
  {
    hide SameShown, TextAt;
    var all := (e: Edit) => true;
    PickAll(p, all);
    SameText(h.doc, h.was, h.now);
    RevertsApplyTheRest(p, all, base, h);
    CoalescedInOrder(Reverts(p, base, h), h.Text(), 0);
    assert Rows(base)[0..] == Rows(base);
    FlatRows(base);
    FlatRows(SpliceFrom(Reverts(p, base, h), h.Text(), 0));
  }

  lemma {:induction false} PickAll(p: Patch, all: Edit -> bool)
    requires forall e :: all(e)
    ensures Pick(p, all) == p && Pick(p, Not(all)) == []
  {
    if p != [] {
      PickAll(p[1..], all);
      assert p == [p[0]] + p[1..];
    }
  }
}
