/** From character edits to row edits. */
module RowEdits {
  import opened LineText
  import opened Patches

  datatype Point = Point(row: nat, column: nat)

  function ToPoint(t: string, o: nat): Point
    requires o <= |t|
  {
    RowStartBefore(t, o);
    Point(RowOf(t, o), o - RowStart(t, RowOf(t, o)))
  }

  /** The length of a row without its newline. */
  function LineLength(t: string, row: nat): nat {
    LineLen(t[RowStart(t, row)..])
  }

  /** Widens a character edit to whole rows. */
  function PointToRowEdit(e: Edit, oldText: string, newText: string): Edit
    requires Within(e.before, oldText) && Within(e.after, newText)
  {
    var oldStart, oldEnd := ToPoint(oldText, e.before.start), ToPoint(oldText, e.before.end);
    var newStart, newEnd := ToPoint(newText, e.after.start), ToPoint(newText, e.after.end);
    if && oldStart.column == LineLength(oldText, oldStart.row)
       && e.after.start < |newText| && newText[e.after.start] == '\n'
       && oldStart != ToPoint(oldText, |oldText|) then
      Edit(Span(oldStart.row + 1, oldEnd.row + 1), Span(newStart.row + 1, newEnd.row + 1))
    else if oldStart.column == 0 && oldEnd.column == 0 && newEnd.column == 0 then
      Edit(Span(oldStart.row, oldEnd.row), Span(newStart.row, newEnd.row))
    else
      Edit(Span(oldStart.row, oldEnd.row + 1), Span(newStart.row, newEnd.row + 1))
  }

  predicate AllWithin(edits: Patch, oldText: string, newText: string) {
    forall k | 0 <= k < |edits| :: Within(edits[k].before, oldText) && Within(edits[k].after, newText)
  }

  function RowEditsOf(edits: Patch, oldText: string, newText: string): (rows: Patch)
    requires AllWithin(edits, oldText, newText)
    ensures |rows| == |edits|
  {
    seq(|edits|, k requires 0 <= k < |edits| => PointToRowEdit(edits[k], oldText, newText))
  }

  /** Merges `cur` with the edits after it for as long as they touch or overlap, and so on. */
  function Coalesce(cur: Edit, rest: Patch): (p: Patch)
    ensures p != []
    decreases |rest|
  {
    if rest == [] then [cur]
    else if cur.before.end >= rest[0].before.start then Coalesce(Extend(cur, rest[0]), rest[1..])
    else [cur] + Coalesce(rest[0], rest[1..])
  }

  function Extend(cur: Edit, next: Edit): Edit {
    Edit(Span(cur.before.start, next.before.end), Span(cur.after.start, next.after.end))
  }

  function CoalesceAll(rows: Patch): Patch {
    if rows == [] then [] else Coalesce(rows[0], rows[1..])
  }

  // ----- points

  lemma ColumnFacts(t: string, o: nat)
    requires o <= |t|
    ensures ToPoint(t, o).column == LineLength(t, RowOf(t, o)) <==> o == |t| || t[o] == '\n'
    ensures ToPoint(t, o).column == 0 <==> IsRowStart(t, o)
    ensures ToPoint(t, o) == ToPoint(t, |t|) <==> o == |t|
  {
    hide RowOf, RowStart, LineLen;
    RowStartBefore(t, o);
    RowStartBefore(t, |t|);
    EndOfLine(t, RowStart(t, RowOf(t, o)), o);
    StartOfLine(t, RowStart(t, RowOf(t, o)), o);
  }

  lemma EndOfLine(t: string, s: nat, o: nat)
    requires s <= o <= |t| && NoNewline(t[s..o])
    ensures LineLen(t[s..]) == o - s <==> o == |t| || t[o] == '\n'
  {
    LineLenStops(t[s..]);
    assert t[s..o] == t[s..][..o - s];
    if o == |t| || t[o] == '\n' {
      LineLenIs(t[s..], o - s);
    }
  }

  lemma StartOfLine(t: string, s: nat, o: nat)
    requires s <= o <= |t| && NoNewline(t[s..o]) && IsRowStart(t, s)
    ensures s == o <==> IsRowStart(t, o)
  {
    if s < o {
      assert t[s..o][o - s - 1] == t[o - 1];
    }
  }

  lemma RowOfMonotone(t: string, o: nat, p: nat)
    requires o <= p <= |t|
    ensures RowOf(t, o) <= RowOf(t, p) < |Rows(t)|
    ensures RowOf(t, o) == RowOf(t, p) ==> NoNewline(t[o..p])
  {
    RowOfAdvance(t, o, p);
    RowOfAdvance(t, p, |t|);
    RowCount(t);
    assert t[..|t|] == t;
    NoNewlines(t[o..p]);
  }

  lemma NextRow(t: string, o: nat)
    requires o < |t| && t[o] == '\n'
    ensures RowOf(t, o + 1) == RowOf(t, o) + 1
    ensures IsRowStart(t, o + 1)
  {
    RowOfAdvance(t, o, o + 1);
    assert t[o..o + 1] == "\n";
  }

  // ----- where a row edit ends and starts

  /** The row edit `cur` ends where the character edit `e` ends: exactly, at row starts, or after the rows `e` ends in. */
  ghost predicate EndsWith(cur: Edit, e: Edit, s: string, t: string)
    requires Within(e.before, s) && Within(e.after, t)
  {
    || (&& IsRowStart(s, e.before.end) && IsRowStart(t, e.after.end)
        && cur.before.end == RowOf(s, e.before.end) && cur.after.end == RowOf(t, e.after.end))
    || (cur.before.end == RowOf(s, e.before.end) + 1 && cur.after.end == RowOf(t, e.after.end) + 1)
  }

  /** Any position after `e.end` is in a row at or after row `start`. */
  ghost predicate StartsBy(start: int, t: string, end: int)
    requires 0 <= end <= |t|
  {
    || 0 <= start <= RowOf(t, end)
    || (start == RowOf(t, end) + 1 && end < |t| && t[end] == '\n')
  }

  lemma RowEditEnds(e: Edit, s: string, t: string)
    requires Within(e.before, s) && Within(e.after, t)
    ensures var r := PointToRowEdit(e, s, t);
      && EndsWith(r, e, s, t)
      && StartsBy(r.before.start, s, e.before.end) && StartsBy(r.after.start, t, e.after.end)
      && r.before.start <= r.before.end && r.after.start <= r.after.end
  {
    ColumnFacts(s, e.before.start);
    ColumnFacts(s, e.before.end);
    ColumnFacts(t, e.after.start);
    ColumnFacts(t, e.after.end);
    RowOfMonotone(s, e.before.start, e.before.end);
    RowOfMonotone(t, e.after.start, e.after.end);
    if e.before.start < e.before.end {
      assert s[e.before.start..e.before.end][0] == s[e.before.start];
    }
    if e.after.start < e.after.end {
      assert t[e.after.start..e.after.end][0] == t[e.after.start];
    }
  }

  lemma SameRow(t: string, o: nat, p: nat)
    requires o <= p <= |t| && RowOf(t, o) == RowOf(t, p)
    requires (o < |t| && t[o] == '\n') || IsRowStart(t, p)
    ensures o == p
  {
    RowOfMonotone(t, o, p);
    NoNewlineBetween(t, o, p);
  }

  /** A character edit that changes something widens to a row edit that is not empty. */
  lemma RowEditNotEmpty(e: Edit, s: string, t: string)
    requires Within(e.before, s) && Within(e.after, t) && !e.IsEmpty()
    ensures !PointToRowEdit(e, s, t).IsEmpty()
  {
    if PointToRowEdit(e, s, t).IsEmpty() {
      RowOfMonotone(s, e.before.start, e.before.end);
      RowOfMonotone(t, e.after.start, e.after.end);
      ColumnFacts(s, e.before.start);
      ColumnFacts(s, e.before.end);
      ColumnFacts(t, e.after.end);
      SameRow(s, e.before.start, e.before.end);
      SameRow(t, e.after.start, e.after.end);
    }
  }

  /** The row edit of `e` starts at row starts `q` and `q'`, up to which the texts agree from `i` and `j` on. */
  lemma RowEditStart(e: Edit, s: string, t: string, i: int, j: int, x: int) returns (q: int, q': int)
    requires Within(e.before, s) && Within(e.after, t)
    requires 0 <= i <= e.before.start && 0 <= j <= e.after.start && s[i..e.before.start] == t[j..e.after.start]
    requires (IsRowStart(s, i) && IsRowStart(t, j)) || x == RowOf(s, i) + 1
    requires x <= PointToRowEdit(e, s, t).before.start
    ensures i <= q <= |s| && j <= q' <= |t| && s[i..q] == t[j..q']
    ensures IsRowStart(s, q) && IsRowStart(t, q')
    ensures RowOf(s, q) == PointToRowEdit(e, s, t).before.start
    ensures RowOf(t, q') == PointToRowEdit(e, s, t).after.start
  {
    var o, n := e.before.start, e.after.start;
    ColumnFacts(s, o);
    if && ToPoint(s, o).column == LineLength(s, RowOf(s, o))
       && n < |t| && t[n] == '\n' && ToPoint(s, o) != ToPoint(s, |s|) {
      q, q' := o + 1, n + 1;
      NextRow(s, o);
      NextRow(t, n);
      assert s[i..o + 1] == s[i..o] + ['\n'] && t[j..n + 1] == t[j..n] + ['\n'];
    } else {
      q, q' := RowStartInGap(s, t, i, o, j, n, x);
    }
  }

  lemma RowStartInGap(s: string, t: string, i: nat, o: nat, j: nat, n: nat, x: int) returns (q: int, q': int)
    requires i <= o <= |s| && j <= n <= |t| && s[i..o] == t[j..n]
    requires (IsRowStart(s, i) && IsRowStart(t, j)) || x == RowOf(s, i) + 1
    requires x <= RowOf(s, o)
    ensures i <= q <= o && j <= q' <= n && s[i..q] == t[j..q']
    ensures IsRowStart(s, q) && IsRowStart(t, q')
    ensures RowOf(s, q) == RowOf(s, o) && RowOf(t, q') == RowOf(t, n)
  {
    q := RowStart(s, RowOf(s, o));
    RowStartBefore(s, o);
    RowOfAdvance(s, q, o);
    NoNewlines(s[q..o]);
    RowStartNotBefore(s, i, q, o, x);
    hide RowStart, RowOf, NoNewline;
    q' := j + (q - i);
    SplitAlike(s, i, q, o, t, j, q', n);
    RowOfAdvance(t, q', n);
    assert i < q ==> s[i..q][q - i - 1] == t[j..q'][q - i - 1];
  }

  lemma SplitAlike(s: string, i: nat, q: nat, o: nat, t: string, j: nat, q': nat, n: nat)
    requires i <= q <= o <= |s| && j <= q' && j <= n <= |t| && s[i..o] == t[j..n] && q - i == q' - j
    ensures q' <= n && s[i..q] == t[j..q'] && s[q..o] == t[q'..n]
  {
    assert |s[i..o]| == |t[j..n]|;
    assert s[i..q] == s[i..o][..q - i] && t[j..q'] == t[j..n][..q - i];
    assert s[q..o] == s[i..o][q - i..] && t[q'..n] == t[j..n][q - i..];
  }

  lemma RowStartNotBefore(s: string, i: nat, q: nat, o: nat, x: int)
    requires i <= o <= |s| && q <= o && IsRowStart(s, q) && NoNewline(s[q..o])
    requires IsRowStart(s, i) || (x == RowOf(s, i) + 1 && x <= RowOf(s, o))
    ensures i <= q
  {
    NoNewlineBetween(s, q, o);
    NoNewlines(s[i..o]);
    RowOfAdvance(s, i, o);
  }

  /** Texts that agree and go on to another row get to it at the same place. */
  lemma NextRowAlike(s: string, i: nat, q: nat, t: string, j: nat, q': nat) returns (k: nat)
    requires i <= q <= |s| && j <= q' <= |t| && s[i..q] == t[j..q'] && RowOf(s, i) < RowOf(s, q)
    ensures i + k < q && j + k < q' && s[i + k + 1..q] == t[j + k + 1..q']
    ensures IsRowStart(s, i + k + 1) && IsRowStart(t, j + k + 1)
    ensures RowOf(s, i + k + 1) == RowOf(s, i) + 1 && RowOf(t, j + k + 1) == RowOf(t, j) + 1
  {
    hide RowOf, LineLen, Newlines;
    var u := s[i..q];
    RowOfAdvance(s, i, q);
    assert u[..|u|] == u;
    NoNewlines(u);
    LineLenStops(u);
    k := LineLen(u);
    SplitAlike(s, i, i + k, q, t, j, j + k, q');
    SplitAlike(s, i, i + k + 1, q, t, j, j + k + 1, q');
    assert u[..k] == s[i..i + k] && s[i + k] == u[k] && t[j + k] == t[j..q'][k];
    NoNewlines(u[..k]);
    RowOfAdvance(s, i, i + k);
    RowOfAdvance(t, j, j + k);
    NextRow(s, i + k);
    NextRow(t, j + k);
  }

  /** The row edit `cur` ends at row starts `p` and `p'`, from which the texts still agree up to `q` and `q'`. */
  lemma RowEditEnd(cur: Edit, e: Edit, s: string, t: string, q: int, q': int) returns (p: int, p': int)
    requires Within(e.before, s) && Within(e.after, t) && EndsWith(cur, e, s, t)
    requires e.before.end <= q <= |s| && e.after.end <= q' <= |t|
    requires s[e.before.end..q] == t[e.after.end..q'] && cur.before.end <= RowOf(s, q)
    ensures 0 <= p <= q && 0 <= p' <= q' && IsRowStart(s, p) && IsRowStart(t, p')
    ensures s[p..q] == t[p'..q']
    ensures RowOf(s, p) == cur.before.end && RowOf(t, p') == cur.after.end
  {
    hide RowOf, IsRowStart;
    var i, j := e.before.end, e.after.end;
    if cur.before.end == RowOf(s, i) {
      p, p' := i, j;
    } else {
      var k := NextRowAlike(s, i, q, t, j, q');
      p, p' := i + k + 1, j + k + 1;
    }
  }

  lemma RowsAfterLast(cur: Edit, e: Edit, s: string, t: string)
    requires Within(e.before, s) && Within(e.after, t) && EndsWith(cur, e, s, t)
    requires s[e.before.end..] == t[e.after.end..]
    ensures 0 <= cur.before.end <= |Rows(s)| && 0 <= cur.after.end <= |Rows(t)|
    ensures Rows(s)[cur.before.end..] == Rows(t)[cur.after.end..]
  {
    hide Rows, RowOf, Newlines, IsRowStart;
    var i, j := e.before.end, e.after.end;
    RowOfEnd(s, i);
    RowOfEnd(t, j);
    if cur.before.end <= RowOf(s, |s|) {
      assert s[i..|s|] == s[i..] && t[j..|t|] == t[j..];
      var p, p' := RowEditEnd(cur, e, s, t, |s|, |t|);
      RowsFrom(s, p);
      RowsFrom(t, p');
      assert s[p..|s|] == s[p..] && t[p'..|t|] == t[p'..];
    }
  }

  lemma RowOfEnd(t: string, o: nat)
    requires o <= |t|
    ensures RowOf(t, |t|) == RowOf(t, o) + Newlines(t[o..])
    ensures |Rows(t)| == RowOf(t, |t|) + 1
  {
    RowOfAdvance(t, o, |t|);
    assert t[o..|t|] == t[o..] && t[..|t|] == t;
    RowCount(t);
  }

  // ----- the theorem

  /** `p` starts where `cur` does, and after its first edit takes the rows of `s` to the rows of `t`. */
  ghost predicate Continues(p: Patch, cur: Edit, s: string, t: string) {
    && p != [] && p[0].before.start == cur.before.start && p[0].after.start == cur.after.start
    && Within(p[0].before, Rows(s)) && Within(p[0].after, Rows(t))
    && TakesFrom(p[1..], Rows(s), Rows(t), p[0].before.end, p[0].after.end)
    && Separated(p) && (forall k | 0 < k < |p| :: p[k].after.start < |Rows(t)|)
  }

  lemma RowOfZero(t: string)
    ensures RowOf(t, 0) == 0
  {
  }

  /** Merging the row edits of a list of character edits, `e` being the last one merged into `cur`. */
  lemma {:induction false} CoalesceTakes(cur: Edit, e: Edit, rest: Patch, s: string, t: string)
    requires Within(e.before, s) && Within(e.after, t) && AllWithin(rest, s, t)
    requires EndsWith(cur, e, s, t) && cur.before.start <= cur.before.end && cur.after.start <= cur.after.end
    requires StartsBy(cur.before.start, s, e.before.end) && StartsBy(cur.after.start, t, e.after.end)
    requires TakesFrom(rest, s, t, e.before.end, e.after.end) && Separated([e] + rest)
    ensures Continues(Coalesce(cur, RowEditsOf(rest, s, t)), cur, s, t)
    decreases |rest|
  {
    hide RowOf, Rows, IsRowStart, PointToRowEdit;
    if rest == [] {
      RowsAfterLast(cur, e, s, t);
    } else {
      var c := rest[0];
      var r := PointToRowEdit(c, s, t);
      assert RowEditsOf(rest, s, t)[1..] == RowEditsOf(rest[1..], s, t);
      SeparatedTail(e, rest);
      RowEditEnds(c, s, t);
      if cur.before.end >= r.before.start {
        StartsByLater(cur.before.start, s, e.before.end, c.before.end);
        StartsByLater(cur.after.start, t, e.after.end, c.after.end);
        CoalesceTakes(Extend(cur, r), c, rest[1..], s, t);
      } else {
        CoalesceTakes(r, c, rest[1..], s, t);
        RowGap(cur, e, c, s, t);
        CoalescedStep(cur, Coalesce(r, RowEditsOf(rest[1..], s, t)), s, t);
      }
    }
  }

  lemma SeparatedTail(e: Edit, rest: Patch)
    requires Separated([e] + rest) && rest != []
    ensures e.before.end < rest[0].before.start && e.after.end < rest[0].after.start
    ensures Separated([rest[0]] + rest[1..])
  {
    assert ([e] + rest)[0] == e && ([e] + rest)[1] == rest[0];
    assert [rest[0]] + rest[1..] == ([e] + rest)[1..];
  }

  /** The rows between two row edits that do not touch are the same before and after. */
  lemma RowGap(cur: Edit, e: Edit, c: Edit, s: string, t: string)
    requires Within(e.before, s) && Within(e.after, t) && Within(c.before, s) && Within(c.after, t)
    requires EndsWith(cur, e, s, t) && e.before.end <= c.before.start && e.after.end <= c.after.start
    requires s[e.before.end..c.before.start] == t[e.after.end..c.after.start]
    requires cur.before.end <= PointToRowEdit(c, s, t).before.start
    ensures var r := PointToRowEdit(c, s, t);
      && 0 <= cur.before.end <= r.before.start < |Rows(s)| && 0 <= cur.after.end <= r.after.start < |Rows(t)|
      && Rows(s)[cur.before.end..r.before.start] == Rows(t)[cur.after.end..r.after.start]
  {
    var q, q' := RowEditStart(c, s, t, e.before.end, e.after.end, cur.before.end);
    var p, p' := RowEditEnd(cur, e, s, t, q, q');
    SameRows(s, p, q, t, p', q');
  }

  lemma StartsByLater(start: int, t: string, end: int, end': int)
    requires 0 <= end < end' <= |t| && StartsBy(start, t, end)
    ensures 0 <= start <= RowOf(t, end')
  {
    RowOfMonotone(t, end, end');
    if start == RowOf(t, end) + 1 {
      NextRow(t, end);
      RowOfMonotone(t, end + 1, end');
    }
  }

  lemma CoalescedStep(cur: Edit, p: Patch, s: string, t: string)
    requires p != [] && Continues(p, p[0], s, t) && p[0].after.start < |Rows(t)|
    requires 0 <= cur.before.start <= cur.before.end < p[0].before.start
    requires 0 <= cur.after.start <= cur.after.end <= p[0].after.start
    requires Rows(s)[cur.before.end..p[0].before.start] == Rows(t)[cur.after.end..p[0].after.start]
    ensures Continues([cur] + p, cur, s, t)
  {
    assert |Rows(s)[cur.before.end..p[0].before.start]| == |Rows(t)[cur.after.end..p[0].after.start]|;
    var q := [cur] + p;
    forall k, m | 0 <= k < m < |q|
      ensures q[k].before.end < q[m].before.start && q[k].after.end < q[m].after.start
    {
      assert q[m] == p[m - 1];
      if k == 0 {
        assert m > 1 ==> p[0].before.end < p[m - 1].before.start;
      } else {
        assert p[k - 1].before.end < p[m - 1].before.start;
      }
    }
  }

  lemma {:induction false} TakesWithin(p: Patch, s: string, t: string, i: int, j: int)
    requires TakesFrom(p, s, t, i, j)
    ensures AllWithin(p, s, t)
  {
    if p != [] {
      TakesWithin(p[1..], s, t, p[0].before.end, p[0].after.end);
      assert forall k | 0 < k < |p| :: p[k] == p[1..][k - 1];
    }
  }

  /** Widening separated character edits to rows and merging the rows that touch gives a separated row patch
      with the same effect. */
  lemma RowPatchTakes(edits: Patch, s: string, t: string)
    requires Takes(edits, s, t) && Separated(edits)
    ensures AllWithin(edits, s, t)
    ensures Takes(CoalesceAll(RowEditsOf(edits, s, t)), Rows(s), Rows(t))
    ensures Separated(CoalesceAll(RowEditsOf(edits, s, t)))
    ensures StartInside(CoalesceAll(RowEditsOf(edits, s, t)), |Rows(t)|)
  {
    hide RowOf, Rows, EndsWith, PointToRowEdit, RowStart, StartsBy;
    TakesWithin(edits, s, t, 0, 0);
    if edits == [] {
      assert s[0..] == s && t[0..] == t;
    } else {
      var c := edits[0];
      var r := PointToRowEdit(c, s, t);
      var rows := RowEditsOf(edits, s, t);
      assert rows[1..] == RowEditsOf(edits[1..], s, t);
      RowEditEnds(c, s, t);
      assert [c] + edits[1..] == edits;
      CoalesceTakes(r, c, edits[1..], s, t);
      var q, q' := RowEditStart(c, s, t, 0, 0, 0);
      RowOfZero(s);
      RowOfZero(t);
      SameRows(s, 0, q, t, 0, q');
    }
  }

  /** One character edit and its row widening have the same effect. */
  lemma RowEditTakes(e: Edit, s: string, t: string)
    requires Takes([e], s, t)
    ensures Within(e.before, s) && Within(e.after, t)
    ensures Takes([PointToRowEdit(e, s, t)], Rows(s), Rows(t))
  {
    RowPatchTakes([e], s, t);
    assert RowEditsOf([e], s, t) == [PointToRowEdit(e, s, t)];
  }

  /** Merging is sound only for edits with unchanged text between them: when "\nA" and then "B\n" are inserted at
      an empty row, the two touching insertions widen to rows 1..1 and 0..0, and merging those gives a span that
      ends before it starts. */
  lemma TouchingEditsMergeBadly(s: string, t: string)
    requires s == "\n" && t == "\nAB\n\n"
    ensures var edits := [Edit(Span(0, 0), Span(0, 2)), Edit(Span(0, 0), Span(2, 4))];
      && Takes(edits, s, t) && AllWithin(edits, s, t)
      && CoalesceAll(RowEditsOf(edits, s, t)) == [Edit(Span(1, 0), Span(1, 2))]
  {
    var e1, e2 := Edit(Span(0, 0), Span(0, 2)), Edit(Span(0, 0), Span(2, 4));
    assert s[0..] == t[4..];
    TouchingEdits(s, t, e1, e2);
    TouchingRowEdits(s, t);
    assert RowEditsOf([e1, e2], s, t) == [Edit(Span(1, 1), Span(1, 2)), Edit(Span(0, 0), Span(1, 2))];
    TouchingRowsMerge(Edit(Span(1, 1), Span(1, 2)), Edit(Span(0, 0), Span(1, 2)));
  }

  lemma TouchingEdits(s: string, t: string, e1: Edit, e2: Edit)
    requires Within(e1.before, s) && Within(e1.after, t) && Within(e2.before, s) && Within(e2.after, t)
    requires e1.before.start == 0 && e1.after.start == 0
    requires e1.before.end == e2.before.start && e1.after.end == e2.after.start
    requires s[e2.before.end..] == t[e2.after.end..]
    ensures Takes([e1, e2], s, t)
  {
    assert [e1, e2][1..] == [e2] && [e2][1..] == [];
    assert TakesFrom([e2], s, t, e2.before.start, e2.after.start);
  }

  lemma TouchingRowsMerge(r1: Edit, r2: Edit)
    requires r1.before.end >= r2.before.start
    ensures CoalesceAll([r1, r2]) == [Extend(r1, r2)]
  {
    assert [r1, r2][1..] == [r2] && [r2][1..] == [];
    assert Coalesce(r1, [r2]) == Coalesce(Extend(r1, r2), []);
    assert Coalesce(Extend(r1, r2), []) == [Extend(r1, r2)];
  }

  lemma TouchingRowEdits(s: string, t: string)
    requires |s| == 1 && |t| == 5 && s[0] == t[0] == t[3] == '\n' && t[1] != '\n' && t[2] != '\n'
    ensures PointToRowEdit(Edit(Span(0, 0), Span(0, 2)), s, t) == Edit(Span(1, 1), Span(1, 2))
    ensures PointToRowEdit(Edit(Span(0, 0), Span(2, 4)), s, t) == Edit(Span(0, 0), Span(1, 2))
  {
    ColumnFacts(s, 0);
    ColumnFacts(t, 4);
    NextRow(t, 0);
    NoNewlines(t[1..3]);
    RowOfAdvance(t, 1, 2);
    RowOfAdvance(t, 1, 3);
    NoNewlines(t[1..2]);
    NextRow(t, 3);
  }

  // ----- which rows are taken

  /** A newline was there and a newline is there, so the edit starts behind the text of its row. */
  predicate StartsAtLineEnds(e: Edit, s: string, t: string) {
    && 0 <= e.before.start < |s| && s[e.before.start] == '\n'
    && 0 <= e.after.start < |t| && t[e.after.start] == '\n'
  }

  /** The edit takes out whole rows, and puts in whole rows. */
  predicate IsOfWholeRows(e: Edit, s: string, t: string) {
    IsRowStart(s, e.before.start) && IsRowStart(s, e.before.end) && IsRowStart(t, e.after.end)
  }

  /** The rows of a row edit. */
  lemma RowEditRows(e: Edit, s: string, t: string)
    requires Within(e.before, s) && Within(e.after, t)
    ensures var a, b, a', b' := RowOf(s, e.before.start), RowOf(s, e.before.end), RowOf(t, e.after.start), RowOf(t, e.after.end);
      PointToRowEdit(e, s, t) ==
        if StartsAtLineEnds(e, s, t) then Edit(Span(a + 1, b + 1), Span(a' + 1, b' + 1))
        else if IsOfWholeRows(e, s, t) then Edit(Span(a, b), Span(a', b'))
        else Edit(Span(a, b + 1), Span(a', b' + 1))
  {
    hide RowOf, RowStart, LineLen;
    ColumnFacts(s, e.before.start);
    ColumnFacts(s, e.before.end);
    ColumnFacts(t, e.after.end);
  }

  /** The edit takes row `r` of `s`: the rows it starts in to ends in, but not the one it starts behind, nor, if it is of
      whole rows, the one it ends before. */
  predicate TakesRow(e: Edit, s: string, t: string, r: int)
    requires Within(e.before, s) && Within(e.after, t)
  {
    && RowOf(s, e.before.start) <= r <= RowOf(s, e.before.end)
    && (StartsAtLineEnds(e, s, t) ==> r != RowOf(s, e.before.start))
    && (!StartsAtLineEnds(e, s, t) && IsOfWholeRows(e, s, t) ==> r != RowOf(s, e.before.end))
  }

  lemma TakenRows(e: Edit, s: string, t: string, r: int)
    requires Within(e.before, s) && Within(e.after, t)
    ensures PointToRowEdit(e, s, t).before.Has(r) <==> TakesRow(e, s, t, r)
  {
    hide RowOf, PointToRowEdit, IsRowStart;
    RowEditRows(e, s, t);
  }

  ghost predicate AnyHas(p: Patch, r: int) {
    exists k | 0 <= k < |p| :: p[k].before.Has(r)
  }

  ghost predicate AnyTakes(edits: Patch, s: string, t: string, r: int)
    requires AllWithin(edits, s, t)
  {
    exists k | 0 <= k < |edits| :: TakesRow(edits[k], s, t, r)
  }

  lemma AnyHasCons(e: Edit, p: Patch, r: int)
    ensures AnyHas([e] + p, r) <==> e.before.Has(r) || AnyHas(p, r)
  {
    var q := [e] + p;
    assert q[0] == e && forall k | 0 <= k < |p| :: q[k + 1] == p[k];
    if k :| 0 <= k < |q| && q[k].before.Has(r) {
      assert k > 0 ==> p[k - 1].before.Has(r);
    }
    if k :| 0 <= k < |p| && p[k].before.Has(r) {
      assert q[k + 1].before.Has(r);
    }
  }

  /** The row edits start, and end, one after the other. */
  predicate Ascend(rows: Patch) {
    && (forall k | 0 <= k < |rows| :: rows[k].before.start <= rows[k].before.end)
    && (forall k | 0 < k < |rows| ::
          rows[k - 1].before.start <= rows[k].before.start && rows[k - 1].before.end <= rows[k].before.end)
  }

  lemma AscendTail(rows: Patch)
    requires |rows| > 1 && Ascend(rows)
    ensures Ascend(rows[1..]) && Ascend([Extend(rows[0], rows[1])] + rows[2..])
    ensures rows[0].before.start <= rows[1].before.start && rows[0].before.end <= rows[1].before.end
  {
    var p, q := rows[1..], [Extend(rows[0], rows[1])] + rows[2..];
    assert forall k | 0 <= k < |p| :: p[k] == rows[k + 1];
    assert forall k | 0 < k < |q| :: q[k] == rows[k + 1];
    forall k | 0 < k < |p| ensures p[k - 1].before.start <= p[k].before.start && p[k - 1].before.end <= p[k].before.end {
      assert rows[k].before.start <= rows[k + 1].before.start;
    }
    forall k | 0 < k < |q| ensures q[k - 1].before.start <= q[k].before.start && q[k - 1].before.end <= q[k].before.end {
      assert rows[k].before.start <= rows[k + 1].before.start;
    }
  }

  /** Merging takes no row that none of the merged edits takes. */
  lemma {:induction false} MergedRows(cur: Edit, rest: Patch, r: int)
    requires Ascend([cur] + rest)
    ensures AnyHas(Coalesce(cur, rest), r) <==> AnyHas([cur] + rest, r)
    decreases |rest|
  {
    hide AnyHas, Ascend;
    if rest == [] {
      assert [cur] + rest == [cur];
    } else {
      var rows := [cur] + rest;
      AscendTail(rows);
      assert rows[1..] == [rest[0]] + rest[1..] == rest && rows[2..] == rest[1..];
      AnyHasCons(cur, rest, r);
      AnyHasCons(rest[0], rest[1..], r);
      if cur.before.end >= rest[0].before.start {
        MergedRows(Extend(cur, rest[0]), rest[1..], r);
        AnyHasCons(Extend(cur, rest[0]), rest[1..], r);
      } else {
        MergedRows(rest[0], rest[1..], r);
        AnyHasCons(cur, Coalesce(rest[0], rest[1..]), r);
      }
    }
  }

  /** A row edit starts and ends no earlier than that of a character edit before it. */
  lemma RowEditsInOrder(e: Edit, c: Edit, s: string, t: string)
    requires Within(e.before, s) && Within(e.after, t) && Within(c.before, s) && Within(c.after, t)
    requires e.before.end < c.before.start
    ensures var p, q := PointToRowEdit(e, s, t).before, PointToRowEdit(c, s, t).before; p.start <= q.start && p.end <= q.end
  {
    hide RowOf, PointToRowEdit;
    RowEditRows(e, s, t);
    RowEditRows(c, s, t);
    RowOfMonotone(s, e.before.start, e.before.end);
    RowOfMonotone(s, e.before.end, c.before.start);
    RowOfMonotone(s, c.before.start, c.before.end);
    if StartsAtLineEnds(e, s, t) {
      NextRow(s, e.before.start);
      RowOfMonotone(s, e.before.start + 1, c.before.start);
    }
    if IsRowStart(s, c.before.start) {
      NextRow(s, c.before.start - 1);
      RowOfMonotone(s, e.before.end, c.before.start - 1);
    }
  }

  lemma RowEditsAscend(edits: Patch, s: string, t: string)
    requires AllWithin(edits, s, t) && Separated(edits)
    ensures Ascend(RowEditsOf(edits, s, t))
  {
    hide PointToRowEdit, RowOf;
    var rows := RowEditsOf(edits, s, t);
    forall k | 0 <= k < |rows| ensures rows[k].before.start <= rows[k].before.end {
      RowEditEnds(edits[k], s, t);
    }
    forall k | 0 < k < |rows|
      ensures rows[k - 1].before.start <= rows[k].before.start && rows[k - 1].before.end <= rows[k].before.end
    {
      RowEditsInOrder(edits[k - 1], edits[k], s, t);
    }
  }

  /** The merged row edits take exactly the rows that some character edit takes. */
  lemma RowsTaken(edits: Patch, s: string, t: string, r: int)
    requires AllWithin(edits, s, t) && Separated(edits)
    ensures AnyHas(CoalesceAll(RowEditsOf(edits, s, t)), r) <==> AnyTakes(edits, s, t, r)
  {
    hide PointToRowEdit, TakesRow;
    var rows := RowEditsOf(edits, s, t);
    RowEditsAscend(edits, s, t);
    if edits != [] {
      assert [rows[0]] + rows[1..] == rows;
      MergedRows(rows[0], rows[1..], r);
    }
    forall k | 0 <= k < |edits| ensures rows[k].before.Has(r) <==> TakesRow(edits[k], s, t, r) {
      TakenRows(edits[k], s, t, r);
    }
  }

  // ----- which rows are touched

  /** A character of row `r`, its newline included, is taken out. */
  ghost predicate TakesFromRow(e: Edit, s: string, r: int)
    requires Within(e.before, s)
  {
    exists p | e.before.start <= p < e.before.end :: RowOf(s, p) == r
  }

  /** Row `r` goes on with what the edit puts in, or what is left of it follows other text on its row. */
  predicate AddsToRow(e: Edit, s: string, t: string, r: int)
    requires Within(e.before, s) && Within(e.after, t)
  {
    || (r == RowOf(s, e.before.start) && !IsRowStart(s, e.before.start) && !StartsAtLineEnds(e, s, t) && !e.after.IsEmpty())
    || (r == RowOf(s, e.before.end) && !IsRowStart(t, e.after.end))
  }

  /** The edit takes something out up to a row start and puts something in up to a row start, but it does not start at one, or
      starts behind the text of an empty row. */
  predicate Overreaches(e: Edit, s: string, t: string) {
    && e.before.start < e.before.end && IsRowStart(s, e.before.end) && IsRowStart(t, e.after.end)
    && (StartsAtLineEnds(e, s, t) || !IsRowStart(s, e.before.start))
  }

  lemma StartOfRow(s: string, start: nat, end: nat, r: int) returns (p: nat)
    requires start <= end <= |s| && RowOf(s, start) < r <= RowOf(s, end)
    ensures start < p <= end && IsRowStart(s, p) && RowOf(s, p) == r
    ensures r < RowOf(s, end) ==> p < end
  {
    hide RowOf;
    RowOfMonotone(s, start, end);
    p := RowStart(s, r);
    RowOfRowStart(s, r);
    hide RowStart;
    if r == RowOf(s, end) {
      RowStartBefore(s, end);
    } else if p >= end {
      RowOfMonotone(s, end, p);
    }
    if p <= start {
      RowOfMonotone(s, p, start);
    }
    RowStartIsOne(s, r);
  }

  lemma RowStartIsOne(s: string, r: nat)
    requires r < |Rows(s)|
    ensures IsRowStart(s, RowStart(s, r))
  {
    RowOfRowStart(s, r);
    RowStartBefore(s, RowStart(s, r));
  }

  lemma NothingInRow(e: Edit, s: string)
    requires Within(e.before, s) && e.before.start < e.before.end && IsRowStart(s, e.before.end)
    ensures !TakesFromRow(e, s, RowOf(s, e.before.end)) && RowOf(s, e.before.start) < RowOf(s, e.before.end)
  {
    hide RowOf;
    NextRow(s, e.before.end - 1);
    forall p | e.before.start <= p < e.before.end ensures RowOf(s, p) < RowOf(s, e.before.end) {
      RowOfMonotone(s, p, e.before.end - 1);
    }
  }

  /** An edit takes only rows that it touches, except that one that overreaches also takes the row it ends before. */
  lemma TakenRowsAreTouched(e: Edit, s: string, t: string, r: int)
    requires Within(e.before, s) && Within(e.after, t) && !e.IsEmpty() && TakesRow(e, s, t, r)
    ensures TakesFromRow(e, s, r) || AddsToRow(e, s, t, r) <==> !(Overreaches(e, s, t) && r == RowOf(s, e.before.end))
  {
    hide RowOf;
    var a, b := RowOf(s, e.before.start), RowOf(s, e.before.end);
    if e.before.start < e.before.end && IsRowStart(s, e.before.end) {
      NothingInRow(e, s);
    }
    if a < r {
      var p := StartOfRow(s, e.before.start, e.before.end, r);
      assert p < e.before.end ==> TakesFromRow(e, s, r);
    } else if e.before.start < e.before.end {
      assert RowOf(s, e.before.start) == r;
    }
  }

  /** Merging included: unless a character edit overreaches, only rows that some character edit touches are taken. */
  lemma OnlyTouchedRowsAreTaken(edits: Patch, s: string, t: string, r: int)
    requires Takes(edits, s, t) && Separated(edits) && forall k | 0 <= k < |edits| :: !edits[k].IsEmpty()
    ensures AllWithin(edits, s, t)
    ensures AnyHas(CoalesceAll(RowEditsOf(edits, s, t)), r) ==>
      exists k | 0 <= k < |edits| ::
        || TakesFromRow(edits[k], s, r) || AddsToRow(edits[k], s, t, r)
        || (Overreaches(edits[k], s, t) && r == RowOf(s, edits[k].before.end))
  {
    hide RowOf, TakesRow, TakesFromRow, AddsToRow, Overreaches, PointToRowEdit;
    TakesWithin(edits, s, t, 0, 0);
    RowsTaken(edits, s, t, r);
    if AnyHas(CoalesceAll(RowEditsOf(edits, s, t)), r) {
      var k :| 0 <= k < |edits| && TakesRow(edits[k], s, t, r);
      TakenRowsAreTouched(edits[k], s, t, r);
    }
  }

  /** An edit that overreaches: the newline between two rows is replaced by a newline, a row and a newline, and the second row
      is taken although nothing of it changes. */
  lemma UntouchedRowTaken(s: string, t: string)
    requires |s| == 3 && s[0] != '\n' && s[1] == '\n' && s[2] != '\n'
    requires |t| == 5 && t[..2] == s[..2] && t[2] != '\n' && t[3..] == s[1..]
    ensures var e := Edit(Span(1, 2), Span(1, 4));
      && Takes([e], s, t) && TakesRow(e, s, t, 1) && !TakesFromRow(e, s, 1) && !AddsToRow(e, s, t, 1)
  {
    var e := Edit(Span(1, 2), Span(1, 4));
    assert t[0] == s[0] && t[1] == s[1] && t[3] == s[1] && t[4] == s[2];
    assert [e][1..] == [] && s[0..1] == t[0..1] && s[2..] == t[4..];
    NextRow(s, 1);
    NoNewlines(s[..1]);
    TakenRowsAreTouched(e, s, t, 1);
  }

  // ----- the methods

  /** The row edits between two snapshots, from the character edits between them. */
  method DiffSnapshots(edits: Patch, oldText: string, newText: string) returns (rowEdits: Patch)
    requires Takes(edits, oldText, newText) && Separated(edits)
    ensures Takes(rowEdits, Rows(oldText), Rows(newText)) && Separated(rowEdits)
    ensures AllWithin(edits, oldText, newText) && rowEdits == CoalesceAll(RowEditsOf(edits, oldText, newText))
    ensures forall r :: AnyHas(rowEdits, r) <==> AnyTakes(edits, oldText, newText, r)
  {
    RowPatchTakes(edits, oldText, newText);
    rowEdits := MergeTouching(RowEditsOf(edits, oldText, newText));
    forall r ensures AnyHas(rowEdits, r) <==> AnyTakes(edits, oldText, newText, r) {
      RowsTaken(edits, oldText, newText, r);
    }
  }

  method MergeTouching(rows: Patch) returns (rowEdits: Patch)
    ensures rowEdits == CoalesceAll(rows)
  {
    rowEdits := [];
    var k := 0;
    while k < |rows|
      invariant k <= |rows|
      invariant rowEdits + CoalesceAll(rows[k..]) == CoalesceAll(rows)
    {
      var edit := rows[k];
      assert rows[k..][1..] == rows[k + 1..];
      k := k + 1;
      while k < |rows|
        invariant k <= |rows|
        invariant rowEdits + Coalesce(edit, rows[k..]) == CoalesceAll(rows)
        decreases |rows| - k
      {
        if edit.before.end < rows[k].before.start {
          break;
        }
        assert rows[k..][1..] == rows[k + 1..];
        edit := Extend(edit, rows[k]);
        k := k + 1;
      }
      CoalesceStops(rowEdits, edit, rows[k..]);
      rowEdits := rowEdits + [edit];
    }
  }

  lemma CoalesceStops(done: Patch, edit: Edit, rest: Patch)
    requires rest != [] ==> edit.before.end < rest[0].before.start
    ensures done + Coalesce(edit, rest) == done + [edit] + CoalesceAll(rest)
  {
  }

  /** `Patch::push`: empty edits are dropped, an edit that touches the last one extends it. */
  function PatchPush(p: Patch, e: Edit): Patch {
    if e.IsEmpty() then p
    else if p != [] && p[|p| - 1].before.end >= e.before.start then p[|p| - 1 := Extend(p[|p| - 1], e)]
    else p + [e]
  }

  lemma {:induction false} PushCoalesces(cur: Edit, rest: Patch, e: Edit)
    requires !e.IsEmpty()
    ensures PatchPush(Coalesce(cur, rest), e) == Coalesce(cur, rest + [e])
    decreases |rest|
  {
    if rest == [] {
      assert ([] + [e])[1..] == [];
    } else {
      assert (rest + [e])[1..] == rest[1..] + [e];
      if cur.before.end >= rest[0].before.start {
        PushCoalesces(Extend(cur, rest[0]), rest[1..], e);
      } else {
        PushCoalesces(rest[0], rest[1..], e);
      }
    }
  }

  /** The row patch that `update_diff` builds from the hunks of a diff of `base` and `snapshot`. */
  method UnreviewedEdits(hunks: Patch, base: string, snapshot: string) returns (unreviewed: Patch)
    requires Takes(hunks, base, snapshot) && Separated(hunks)
    requires forall k | 0 <= k < |hunks| :: !hunks[k].IsEmpty()
    ensures Takes(unreviewed, Rows(base), Rows(snapshot)) && Separated(unreviewed)
    ensures StartInside(unreviewed, |Rows(snapshot)|)
    ensures AllWithin(hunks, base, snapshot) && unreviewed == CoalesceAll(RowEditsOf(hunks, base, snapshot))
    ensures forall r :: AnyHas(unreviewed, r) <==> AnyTakes(hunks, base, snapshot, r)
  {
    hide PointToRowEdit, Separated, Takes, StartInside, AnyHas, AnyTakes;
    RowPatchTakes(hunks, base, snapshot);
    ghost var rows := RowEditsOf(hunks, base, snapshot);
    unreviewed := [];
    for k := 0 to |hunks|
      invariant unreviewed == CoalesceAll(rows[..k])
    {
      RowEditNotEmpty(hunks[k], base, snapshot);
      assert rows[..k + 1] == rows[..k] + [rows[k]];
      if k > 0 {
        PushCoalesces(rows[0], rows[..k][1..], rows[k]);
        assert rows[..k + 1][1..] == rows[..k][1..] + [rows[k]];
      }
      unreviewed := PatchPush(unreviewed, PointToRowEdit(hunks[k], base, snapshot));
    }
    assert rows[..|hunks|] == rows;
    forall r ensures AnyHas(unreviewed, r) <==> AnyTakes(hunks, base, snapshot, r) {
      RowsTaken(hunks, base, snapshot, r);
    }
  }
}
