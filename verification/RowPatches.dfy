/** Row patches between line texts, applied in place to a rope. */
module RowPatches {
  import opened LineText
  import opened Patches

  // ----- edits that reach the end of the text

  /** The edit reaches the end of both texts or of neither, and starts at the end of both or of neither. */
  predicate EndsAlike(e: Edit, a: int, b: int) {
    && (e.before.end == a <==> e.after.end == b)
    && (e.before.end == a ==> (e.before.start == a <==> e.after.start == b))
  }

  predicate AllEndAlike(p: Patch, a: int, b: int) {
    forall k | 0 <= k < |p| :: EndsAlike(p[k], a, b)
  }

  /** Only the last row lacks a newline, so a separated patch between line texts changes the last row of both or of neither. */
  lemma {:induction false} TakesEndsAlike(p: Patch, a: seq<string>, b: seq<string>, i: int, j: int)
    requires IsLineText(a) && IsLineText(b) && TakesFrom(p, a, b, i, j) && Separated(p)
    requires p != [] ==> i < |a| && j < |b|
    ensures AllEndAlike(p, |a|, |b|)
  {
    if p != [] {
      var h := p[0];
      if p[1..] == [] {
        assert |a[h.before.end..]| == |b[h.after.end..]|;
      } else {
        assert p[1..][0] == p[1];
      }
      TakesEndsAlike(p[1..], a, b, h.before.end, h.after.end);
      LastRowsMeet(a, i, h.before.start, b, j, h.after.start);
      forall k | 0 <= k < |p| ensures EndsAlike(p[k], |a|, |b|) {
        assert k > 0 ==> p[k] == p[1..][k - 1];
      }
    }
  }

  lemma LastRowsMeet(a: seq<string>, i: int, x: int, b: seq<string>, j: int, y: int)
    requires IsLineText(a) && IsLineText(b)
    requires 0 <= i <= x <= |a| && 0 <= j <= y <= |b| && i < |a| && j < |b| && a[i..x] == b[j..y]
    ensures x == |a| <==> y == |b|
  {
    assert |a[i..x]| == |b[j..y]|;
    assert i < x ==> a[i..x][x - i - 1] == b[j..y][y - j - 1];
  }

  lemma AllEndAlikeTail(p: Patch, a: int, b: int)
    requires p != [] && AllEndAlike(p, a, b)
    ensures EndsAlike(p[0], a, b) && AllEndAlike(p[1..], a, b)
  {
  }

  lemma AllEndAlikeCons(e: Edit, p: Patch, a: int, b: int)
    requires EndsAlike(e, a, b) && AllEndAlike(p, a, b)
    ensures AllEndAlike([e] + p, a, b)
  {
  }

  // ----- applying a row patch in place

  /** `done` is what the edits applied so far made of `base[..last]`, and `todo` are still to come. */
  ghost predicate Remaining(todo: Patch, base: seq<string>, text: seq<string>, done: seq<string>, last: int, all: Patch) {
    && 0 <= last <= |base|
    && Fits(all, base, text, 0) && Fits(todo, base, text, last)
    && Apply(all, base, text) == done + ApplyFrom(todo, base, text, last)
    && AllEndAlike(todo, |base|, |text|)
  }

  lemma RemainingEnds(base: seq<string>, text: seq<string>, done: seq<string>, last: int, all: Patch)
    requires Remaining([], base, text, done, last, all)
    ensures 0 <= last <= |base| && Fits(all, base, text, 0) && Apply(all, base, text) == done + base[last..]
  {
  }

  /** The next edit moves into `done`. */
  lemma RemainingStep(todo: Patch, base: seq<string>, text: seq<string>, done: seq<string>, last: int, all: Patch)
    requires todo != [] && Remaining(todo, base, text, done, last, all)
    ensures var e := todo[0];
      && last <= e.before.start && Within(e.before, base) && Within(e.after, text) && EndsAlike(e, |base|, |text|)
      && Remaining(todo[1..], base, text, done + base[last..e.before.start] + Slice(text, e.after), e.before.end, all)
  {
    var e := todo[0];
    assert done + ApplyFrom(todo, base, text, last)
        == done + base[last..e.before.start] + Slice(text, e.after) + ApplyFrom(todo[1..], base, text, e.before.end);
    forall n | 0 <= n < |todo[1..]| ensures EndsAlike(todo[1..][n], |base|, |text|) {
      assert todo[1..][n] == todo[n + 1];
    }
  }

  /** Replacing a free edit's rows in the text changed so far. */
  lemma SpliceStep(done: seq<string>, base: seq<string>, last: int, e: Edit, text: seq<string>)
    requires 0 <= last <= e.before.start && Within(e.before, base) && Within(e.after, text)
    requires EndsAlike(e, |base|, |text|) && IsLineText(text) && IsLineText(done + base[last..])
    ensures var cur, d := done + base[last..], |done| - last;
      && 0 <= e.before.start + d <= e.before.end + d <= |cur|
      && cur[..e.before.start + d] + text[e.after.start..e.after.end] + cur[e.before.end + d..]
         == done + base[last..e.before.start] + Slice(text, e.after) + base[e.before.end..]
      && IsLineText(cur[..e.before.start + d] + text[e.after.start..e.after.end] + cur[e.before.end + d..])
  {
    var cur, d := done + base[last..], |done| - last;
    SpliceKeepsLineText(cur, e.before.start + d, e.before.end + d, text, e.after.start, e.after.end);
    assert cur[..e.before.start + d] == done + base[last..e.before.start];
    assert cur[e.before.end + d..] == base[e.before.end..];
  }

  /** Replaces the rows of edit `e`, which now lie at `start..end`, in the text changed so far. */
  method ReplaceEdit(rope: Rope, start: int, end: int, source: string, rows: Span,
                     ghost e: Edit, ghost done: seq<string>, ghost base: seq<string>, ghost last: int)
    requires 0 <= last <= e.before.start && Within(e.before, base) && Within(e.after, Rows(source))
    requires EndsAlike(e, |base|, |Rows(source)|)
    requires Rows(rope.text) == done + base[last..]
    requires start == e.before.start + |done| - last && end == e.before.end + |done| - last && rows == e.after
    modifies rope
    ensures Rows(rope.text) == done + base[last..e.before.start] + Slice(Rows(source), e.after) + base[e.before.end..]
  {
    hide Rows, IsLineText, EndsAlike;
    ghost var cur, src := done + base[last..], Rows(source);
    RowsAreLineText(rope.text);
    RowsAreLineText(source);
    SpliceStep(done, base, last, e, src);
    assert IsLineText(cur[..start] + src[rows.start..rows.end] + cur[end..]);
    rope.ReplaceRows(start, end, source, rows.start, rows.end);
  }
}
