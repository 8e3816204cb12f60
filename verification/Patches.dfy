/** Patches: sorted lists of edits that take one sequence to another. The sequences are
    rows when a patch is a row patch, characters when it is a list of buffer edits. */
module Patches {

  datatype Span = Span(start: int, end: int) {
    function Len(): int { end - start }

    function Shift(d: int): Span { Span(start + d, end + d) }

    predicate IsEmpty() { end <= start }

    predicate Has(x: int) { start <= x < end }

    /** `RangeExt::overlaps`. */
    predicate Overlaps(other: Span) {
      start < other.end && other.start < end
    }
  }

  datatype Edit = Edit(before: Span, after: Span) {
    function Growth(): int { after.Len() - before.Len() }

    predicate IsEmpty() { before.IsEmpty() && after.IsEmpty() }
  }

  type Patch = seq<Edit>

  function Min(a: int, b: int): int { if a <= b then a else b }

  function Max(a: int, b: int): int { if a <= b then b else a }

  predicate Within<X>(s: Span, a: seq<X>) {
    0 <= s.start <= s.end <= |a|
  }

  function Slice<X>(a: seq<X>, s: Span): seq<X>
    requires Within(s, a)
  {
    a[s.start..s.end]
  }

  /** From position `i` of `a` and `j` of `b` on, `p` takes `a` to `b`: between its edits the
      two sequences agree element by element. */
  ghost predicate TakesFrom<X>(p: Patch, a: seq<X>, b: seq<X>, i: int, j: int) {
    && 0 <= i <= |a| && 0 <= j <= |b|
    && if p == [] then a[i..] == b[j..] else
         && Within(p[0].before, a) && Within(p[0].after, b)
         && i <= p[0].before.start && j <= p[0].after.start
         && a[i..p[0].before.start] == b[j..p[0].after.start]
         && TakesFrom(p[1..], a, b, p[0].before.end, p[0].after.end)
  }

  ghost predicate Takes<X>(p: Patch, a: seq<X>, b: seq<X>) {
    TakesFrom(p, a, b, 0, 0)
  }

  /** No two edits touch, in the new coordinates or in the old. */
  predicate Separated(p: Patch) {
    forall k, m | 0 <= k < m < |p| :: p[k].after.end < p[m].after.start && p[k].before.end < p[m].before.start
  }

  /** Every edit starts before the end of the target, which has `n` elements. */
  predicate StartInside(p: Patch, n: int) {
    forall k | 0 <= k < |p| :: p[k].after.start < n
  }

  /** The edits are in order in `a`, from position `i` on, and their new spans lie in `b`. */
  predicate Fits<X>(p: Patch, a: seq<X>, b: seq<X>, i: int) {
    && 0 <= i <= |a|
    && (p != [] ==>
          && Within(p[0].before, a) && Within(p[0].after, b) && i <= p[0].before.start
          && Fits(p[1..], a, b, p[0].before.end))
  }

  /** What `a` becomes from position `i` on when every edit's old span is replaced, all at once,
      by its new span of `b`. */
  function ApplyFrom<X>(p: Patch, a: seq<X>, b: seq<X>, i: int): seq<X>
    requires Fits(p, a, b, i)
  {
    if p == [] then a[i..]
    else a[i..p[0].before.start] + Slice(b, p[0].after) + ApplyFrom(p[1..], a, b, p[0].before.end)
  }

  function Apply<X>(p: Patch, a: seq<X>, b: seq<X>): seq<X>
    requires Fits(p, a, b, 0)
  {
    ApplyFrom(p, a, b, 0)
  }

  // ----- what a patch that takes a to b does

  predicate Proper(p: Patch) {
    forall k | 0 <= k < |p| :: p[k].before.start <= p[k].before.end && p[k].after.start <= p[k].after.end
  }

  lemma {:induction false} TakesProper<X>(p: Patch, a: seq<X>, b: seq<X>, i: int, j: int)
    requires TakesFrom(p, a, b, i, j)
    ensures Proper(p)
    ensures forall k | 0 <= k < |p| :: Within(p[k].before, a) && Within(p[k].after, b)
  {
    if p != [] {
      TakesProper(p[1..], a, b, p[0].before.end, p[0].after.end);
      assert forall k | 0 < k < |p| :: p[k] == p[1..][k - 1];
    }
  }

  lemma {:induction false} FitsProper<X>(p: Patch, a: seq<X>, b: seq<X>, i: int)
    requires Fits(p, a, b, i)
    ensures Proper(p)
  {
    if p != [] {
      FitsProper(p[1..], a, b, p[0].before.end);
      assert forall k | 0 < k < |p| :: p[k] == p[1..][k - 1];
    }
  }

  lemma {:induction false} TakesApplies<X>(p: Patch, a: seq<X>, b: seq<X>, i: int, j: int)
    requires TakesFrom(p, a, b, i, j)
    ensures Fits(p, a, b, i)
    ensures ApplyFrom(p, a, b, i) == b[j..]
  {
    if p != [] {
      TakesApplies(p[1..], a, b, p[0].before.end, p[0].after.end);
      assert b[j..] == b[j..p[0].after.start] + Slice(b, p[0].after) + b[p[0].after.end..];
    }
  }

  lemma TakesBounds<X>(p: Patch, a: seq<X>, b: seq<X>, i: int, j: int)
    requires TakesFrom(p, a, b, i, j)
    ensures 0 <= i <= |a| && 0 <= j <= |b|
  {
  }

  /** What `TakesFrom` says of the first edit. */
  lemma TakesHead<X>(p: Patch, a: seq<X>, b: seq<X>, i: int, j: int)
    requires TakesFrom(p, a, b, i, j) && p != []
    ensures 0 <= i <= p[0].before.start && 0 <= j <= p[0].after.start && Within(p[0].before, a) && Within(p[0].after, b)
    ensures a[i..p[0].before.start] == b[j..p[0].after.start] && p[0].before.start - i == p[0].after.start - j
    ensures TakesFrom(p[1..], a, b, p[0].before.end, p[0].after.end)
  {
    assert |a[i..p[0].before.start]| == |b[j..p[0].after.start]|;
  }

  /** A patch may be read from any later point of the stretch before its first edit. */
  lemma Advance<X>(p: Patch, a: seq<X>, b: seq<X>, i: int, j: int, k: int)
    requires TakesFrom(p, a, b, i, j)
    requires 0 <= k
    requires if p == [] then i + k <= |a| || j + k <= |b| else i + k <= p[0].before.start || j + k <= p[0].after.start
    ensures i + k <= |a| && j + k <= |b|
    ensures p != [] ==> i + k <= p[0].before.start && j + k <= p[0].after.start
    ensures TakesFrom(p, a, b, i + k, j + k)
    ensures a[i..i + k] == b[j..j + k]
  {
    if p == [] {
      assert |a[i..]| == |b[j..]|;
      assert a[i..][k..] == b[j..][k..];
      assert a[i..][..k] == b[j..][..k];
    } else {
      var x, y := p[0].before.start, p[0].after.start;
      assert |a[i..x]| == |b[j..y]|;
      assert a[i..x][k..] == b[j..y][k..];
      assert a[i..x][..k] == b[j..y][..k];
      assert a[i..x][..k] == a[i..i + k] && b[j..y][..k] == b[j..j + k];
    }
  }

  /** ... and from any earlier point up to which the sequences agree. */
  lemma Retreat<X>(p: Patch, a: seq<X>, b: seq<X>, i: int, j: int, k: int)
    requires TakesFrom(p, a, b, i, j)
    requires 0 <= k <= i && k <= j && a[i - k..i] == b[j - k..j]
    ensures TakesFrom(p, a, b, i - k, j - k)
  {
    if p == [] {
      assert a[i - k..] == a[i - k..i] + a[i..];
      assert b[j - k..] == b[j - k..j] + b[j..];
    } else {
      var x, y := p[0].before.start, p[0].after.start;
      assert a[i - k..x] == a[i - k..i] + a[i..x];
      assert b[j - k..y] == b[j - k..j] + b[j..y];
    }
  }

  function TotalGrowth(p: Patch): int {
    if p == [] then 0 else p[0].Growth() + TotalGrowth(p[1..])
  }

  lemma {:induction false} TotalGrowthConcat(p: Patch, q: Patch)
    ensures TotalGrowth(p + q) == TotalGrowth(p) + TotalGrowth(q)
  {
    if p == [] {
      assert p + q == q;
    } else {
      TotalGrowthConcat(p[1..], q);
      assert (p + q)[1..] == p[1..] + q;
    }
  }

  lemma TotalGrowthStep(patch: Patch, i: nat)
    requires i < |patch|
    ensures TotalGrowth(patch[..i + 1]) == TotalGrowth(patch[..i]) + patch[i].Growth()
  {
    assert patch[..i + 1] == patch[..i] + [patch[i]];
    TotalGrowthConcat(patch[..i], [patch[i]]);
  }

  lemma SeparatedSuffix(p: Patch, n: nat)
    requires Separated(p) && n <= |p|
    ensures Separated(p[n..])
  {
    forall k, m | 0 <= k < m < |p[n..]|
      ensures p[n..][k].after.end < p[n..][m].after.start && p[n..][k].before.end < p[n..][m].before.start
    {
      assert p[n..][k] == p[n + k] && p[n..][m] == p[n + m];
    }
  }

  lemma ProperSuffix(p: Patch, n: nat)
    requires Proper(p) && n <= |p|
    ensures Proper(p[n..])
  {
  }

  // ----- the inverse patch

  function Invert(p: Patch): Patch {
    seq(|p|, k requires 0 <= k < |p| => Edit(p[k].after, p[k].before))
  }

  lemma {:induction false} InvertTakes<X>(p: Patch, a: seq<X>, b: seq<X>, i: int, j: int)
    requires TakesFrom(p, a, b, i, j)
    ensures TakesFrom(Invert(p), b, a, j, i)
  {
    if p != [] {
      InvertTakes(p[1..], a, b, p[0].before.end, p[0].after.end);
      assert Invert(p)[1..] == Invert(p[1..]);
    }
  }

  // ----- moving a patch

  lemma ApplyCons<X>(e: Edit, rest: Patch, a: seq<X>, b: seq<X>, i: int)
    requires Fits([e] + rest, a, b, i)
    ensures 0 <= i <= e.before.start && Within(e.before, a) && Within(e.after, b) && Fits(rest, a, b, e.before.end)
    ensures ApplyFrom([e] + rest, a, b, i) == a[i..e.before.start] + Slice(b, e.after) + ApplyFrom(rest, a, b, e.before.end)
  {
    assert ([e] + rest)[1..] == rest;
  }

  /** Fits and ApplyFrom look at `a` only from `i` on. */
  lemma ApplySkips<X>(p: Patch, a: seq<X>, b: seq<X>, i: int, i': int)
    requires Fits(p, a, b, i) && i <= i' <= |a| && (p != [] ==> i' <= p[0].before.start)
    ensures Fits(p, a, b, i')
    ensures ApplyFrom(p, a, b, i) == a[i..i'] + ApplyFrom(p, a, b, i')
  {
    if p == [] {
      assert a[i..] == a[i..i'] + a[i'..];
    } else {
      var rest := ApplyFrom(p[1..], a, b, p[0].before.end);
      PartsJoin(a[i..i'], a[i'..p[0].before.start], a[i..p[0].before.start], Slice(b, p[0].after), rest);
    }
  }

  lemma PartsJoin<X>(u: seq<X>, v: seq<X>, w: seq<X>, x: seq<X>, y: seq<X>)
    requires |w| == |u| + |v| && w[..|u|] == u && w[|u|..] == v
    ensures w + x + y == u + (v + x + y)
  {
    assert w == u + v;
  }

  lemma FitsBack<X>(p: Patch, a: seq<X>, b: seq<X>, i: int, i': int)
    requires Fits(p, a, b, i) && 0 <= i' <= i
    ensures Fits(p, a, b, i')
  {
  }

  // ----- accepting some of the edits

  function Not(f: Edit -> bool): Edit -> bool {
    (e: Edit) => !f(e)
  }

  function Flipped(f: Edit -> bool): Edit -> bool {
    (e: Edit) => f(Edit(e.after, e.before))
  }

  /** The edits `f` selects. */
  function Pick(p: Patch, f: Edit -> bool): Patch {
    if p == [] then []
    else if f(p[0]) then [p[0]] + Pick(p[1..], f)
    else Pick(p[1..], f)
  }

  /** The edits `f` does not select, their old spans moved by `d` and by the growth of the selected edits before them. */
  function Leave(p: Patch, f: Edit -> bool, d: int): Patch {
    if p == [] then []
    else if f(p[0]) then Leave(p[1..], f, d + p[0].Growth())
    else [Edit(p[0].before.Shift(d), p[0].after)] + Leave(p[1..], f, d)
  }

  lemma {:induction false} PickFits<X>(p: Patch, f: Edit -> bool, a: seq<X>, b: seq<X>, i: int, i': int)
    requires Fits(p, a, b, i) && 0 <= i' <= i
    ensures Fits(Pick(p, f), a, b, i')
  {
    if p != [] {
      PickFits(p[1..], f, a, b, p[0].before.end, if f(p[0]) then p[0].before.end else i');
      assert f(p[0]) ==> Pick(p, f)[1..] == Pick(p[1..], f);
    }
  }

  /** Applying the selected edits, one edit at a time: a selected edit contributes its new elements,
      any other edit its old ones. */
  lemma ApplyPickStep<X>(p: Patch, f: Edit -> bool, a: seq<X>, b: seq<X>, i: int)
    requires Fits(p, a, b, i) && p != []
    ensures Fits(Pick(p, f), a, b, i) && Fits(Pick(p[1..], f), a, b, p[0].before.end)
    ensures ApplyFrom(Pick(p, f), a, b, i)
         == a[i..p[0].before.start] + (if f(p[0]) then Slice(b, p[0].after) else Slice(a, p[0].before))
            + ApplyFrom(Pick(p[1..], f), a, b, p[0].before.end)
  {
    PickFits(p, f, a, b, i, i);
    PickFits(p[1..], f, a, b, p[0].before.end, p[0].before.end);
    if f(p[0]) {
      assert Pick(p, f)[1..] == Pick(p[1..], f);
    } else {
      ApplySkips(Pick(p, f), a, b, i, p[0].before.end);
      assert a[i..p[0].before.end] == a[i..p[0].before.start] + Slice(a, p[0].before);
    }
  }

  /** Folding any selection of the edits of a patch into its base leaves a patch, made of the other edits,
      from the new base to the same target. `pre` is what the new base holds before position `i` of the old one. */
  lemma {:induction false} AcceptFrom<X>(p: Patch, f: Edit -> bool, a: seq<X>, b: seq<X>, i: int, j: int, pre: seq<X>)
    requires TakesFrom(p, a, b, i, j)
    ensures Fits(Pick(p, f), a, b, i)
    ensures TakesFrom(Leave(p, f, |pre| - i), pre + ApplyFrom(Pick(p, f), a, b, i), b, |pre|, j)
  {
    TakesApplies(p, a, b, i, j);
    PickFits(p, f, a, b, i, i);
    if p == [] {
      assert (pre + a[i..])[|pre|..] == a[i..];
    } else {
      var e := p[0];
      var mid := a[i..e.before.start] + if f(e) then Slice(b, e.after) else Slice(a, e.before);
      AcceptFrom(p[1..], f, a, b, e.before.end, e.after.end, pre + mid);
      AcceptStep(p, f, a, b, i, j, pre, mid);
    }
  }

  lemma AcceptStep<X>(p: Patch, f: Edit -> bool, a: seq<X>, b: seq<X>, i: int, j: int, pre: seq<X>, mid: seq<X>)
    requires p != [] && TakesFrom(p, a, b, i, j)
    requires Fits(p, a, b, i) && Fits(Pick(p, f), a, b, i) && Fits(Pick(p[1..], f), a, b, p[0].before.end)
    requires mid == a[i..p[0].before.start] + if f(p[0]) then Slice(b, p[0].after) else Slice(a, p[0].before)
    requires TakesFrom(Leave(p[1..], f, |pre + mid| - p[0].before.end),
                       pre + mid + ApplyFrom(Pick(p[1..], f), a, b, p[0].before.end), b, |pre + mid|, p[0].after.end)
    ensures TakesFrom(Leave(p, f, |pre| - i), pre + ApplyFrom(Pick(p, f), a, b, i), b, |pre|, j)
  {
    var e := p[0];
    var gap := a[i..e.before.start];
    var part := if f(e) then Slice(b, e.after) else Slice(a, e.before);
    var rest := ApplyFrom(Pick(p[1..], f), a, b, e.before.end);
    var q := Leave(p[1..], f, |pre + mid| - e.before.end);
    assert Leave(p, f, |pre| - i) == if f(e) then q else [Edit(e.before.Shift(|pre| - i), e.after)] + q;
    ApplyPickStep(p, f, a, b, i);
    hide Fits, TakesFrom, Leave, Pick, ApplyFrom;
    assert pre + mid == pre + gap + part;
    JoinStep(e, f(e), q, pre, gap, part, rest, b, i, j);
  }

  lemma JoinStep<X>(e: Edit, picked: bool, q: Patch, pre: seq<X>, gap: seq<X>, mid: seq<X>, rest: seq<X>, b: seq<X>,
                    i: int, j: int)
    requires Within(e.after, b) && 0 <= j <= e.after.start && gap == b[j..e.after.start]
    requires |gap| == e.before.start - i
    requires if picked then mid == Slice(b, e.after) else |mid| == e.before.Len()
    requires TakesFrom(q, pre + gap + mid + rest, b, |pre + gap + mid|, e.after.end)
    ensures TakesFrom(if picked then q else [Edit(e.before.Shift(|pre| - i), e.after)] + q,
                      pre + (gap + mid + rest), b, |pre|, j)
  {
    assert pre + (gap + mid + rest) == pre + gap + mid + rest;
    if picked {
      assert pre + gap + mid + rest == pre + (gap + mid) + rest;
      assert pre + gap + mid == pre + (gap + mid);
      AcceptedStep(q, pre, gap + mid, rest, b, j, e.after.end);
    } else {
      LeftStep(e, q, pre, gap, mid, rest, b, i, j);
    }
  }

  lemma AcceptedStep<X>(q: Patch, pre: seq<X>, mid: seq<X>, rest: seq<X>, b: seq<X>, j: int, j': int)
    requires 0 <= j <= j' <= |b| && mid == b[j..j']
    requires TakesFrom(q, pre + mid + rest, b, |pre + mid|, j')
    ensures TakesFrom(q, pre + mid + rest, b, |pre|, j)
  {
    assert (pre + mid + rest)[|pre|..|pre + mid|] == mid;
    Retreat(q, pre + mid + rest, b, |pre + mid|, j', |mid|);
  }

  lemma LeftStep<X>(e: Edit, q: Patch, pre: seq<X>, gap: seq<X>, mid: seq<X>, rest: seq<X>, b: seq<X>, i: int, j: int)
    requires Within(e.after, b) && 0 <= j <= e.after.start && gap == b[j..e.after.start]
    requires |gap| == e.before.start - i && |mid| == e.before.Len()
    requires TakesFrom(q, pre + gap + mid + rest, b, |pre + gap + mid|, e.after.end)
    ensures TakesFrom([Edit(e.before.Shift(|pre| - i), e.after)] + q, pre + gap + mid + rest, b, |pre|, j)
  {
    var c := pre + gap + mid + rest;
    var q' := [Edit(e.before.Shift(|pre| - i), e.after)] + q;
    assert q'[1..] == q;
    assert c[|pre|..|pre| + |gap|] == gap;
  }

  /** The whole-sequence form of `AcceptFrom`. */
  lemma Accept<X>(p: Patch, f: Edit -> bool, a: seq<X>, b: seq<X>)
    requires Takes(p, a, b)
    ensures Fits(Pick(p, f), a, b, 0)
    ensures Takes(Leave(p, f, 0), Apply(Pick(p, f), a, b), b)
    ensures |Apply(Pick(p, f), a, b)| - |a| == TotalGrowth(Pick(p, f))
  {
    hide TakesFrom, Fits, ApplyFrom, Pick, Leave;
    AcceptFrom(p, f, a, b, 0, 0, []);
    assert [] + ApplyFrom(Pick(p, f), a, b, 0) == Apply(Pick(p, f), a, b);
    ApplyLength(Pick(p, f), a, b, 0);
  }

  lemma {:induction false} ApplyLength<X>(p: Patch, a: seq<X>, b: seq<X>, i: int)
    requires Fits(p, a, b, i)
    ensures |ApplyFrom(p, a, b, i)| == |a| - i + TotalGrowth(p)
  {
    if p != [] {
      ApplyLength(p[1..], a, b, p[0].before.end);
    }
  }

  /** Undoing some edits in the target is applying the others to the base. */
  lemma {:induction false} RejectFrom<X>(p: Patch, f: Edit -> bool, a: seq<X>, b: seq<X>, i: int, j: int)
    requires TakesFrom(p, a, b, i, j)
    ensures Fits(Invert(Pick(p, f)), b, a, j) && Fits(Pick(p, Not(f)), a, b, i)
    ensures ApplyFrom(Invert(Pick(p, f)), b, a, j) == ApplyFrom(Pick(p, Not(f)), a, b, i)
  {
    var g, h := Not(f), Flipped(f);
    TakesApplies(p, a, b, i, j);
    InvertTakes(p, a, b, i, j);
    TakesApplies(Invert(p), b, a, j, i);
    PickFits(p, g, a, b, i, i);
    PickFits(Invert(p), h, b, a, j, j);
    InvertPick(p, f);
    if p != [] {
      var e := p[0];
      RejectFrom(p[1..], f, a, b, e.before.end, e.after.end);
      InvertPick(p[1..], f);
      assert Invert(p)[1..] == Invert(p[1..]);
      ApplyPickStep(p, g, a, b, i);
      ApplyPickStep(Invert(p), h, b, a, j);
    }
  }

  lemma {:induction false} InvertPick(p: Patch, f: Edit -> bool)
    ensures Invert(Pick(p, f)) == Pick(Invert(p), Flipped(f))
  {
    if p != [] {
      InvertPick(p[1..], f);
      assert Invert(p)[1..] == Invert(p[1..]);
      assert f(p[0]) ==> Invert(Pick(p, f)) == [Edit(p[0].after, p[0].before)] + Invert(Pick(p[1..], f));
    }
  }

  // ----- patches that change nothing

  /** The edit puts in what it takes out. */
  predicate IsSame<X(==)>(e: Edit, a: seq<X>, b: seq<X>) {
    Within(e.before, a) && Within(e.after, b) && Slice(a, e.before) == Slice(b, e.after)
  }

  lemma {:induction false} SameEditsApply<X>(p: Patch, a: seq<X>, b: seq<X>, i: int)
    requires Fits(p, a, b, i) && forall k | 0 <= k < |p| :: IsSame(p[k], a, b)
    ensures ApplyFrom(p, a, b, i) == a[i..]
  {
    if p != [] {
      var e := p[0];
      assert forall k | 0 <= k < |p[1..]| :: p[1..][k] == p[k + 1];
      SameEditsApply(p[1..], a, b, e.before.end);
      assert a[i..] == a[i..e.before.start] + Slice(a, e.before) + a[e.before.end..];
    }
  }

  /** If all edits but the last put in as much as they take out, they only change nothing if none of them does. */
  lemma {:induction false} NothingAppliedMeansSame<X>(p: Patch, a: seq<X>, b: seq<X>, i: int)
    requires Fits(p, a, b, i) && ApplyFrom(p, a, b, i) == a[i..]
    requires forall k | 0 <= k < |p| - 1 :: p[k].Growth() == 0
    ensures forall k | 0 <= k < |p| :: IsSame(p[k], a, b)
  {
    if p != [] {
      var e, rest := p[0], ApplyFrom(p[1..], a, b, p[0].before.end);
      assert a[i..] == a[i..e.before.start] + Slice(a, e.before) + a[e.before.end..];
      if p[1..] == [] {
        assert rest == a[e.before.end..];
      }
      SameParts(a[i..e.before.start], Slice(a, e.before), a[e.before.end..], Slice(b, e.after), rest);
      NothingAppliedMeansSame(p[1..], a, b, e.before.end);
      assert forall k | 0 < k < |p| :: p[k] == p[1..][k - 1];
    }
  }

  lemma SameParts<X>(u: seq<X>, x: seq<X>, y: seq<X>, x': seq<X>, y': seq<X>)
    requires u + x + y == u + x' + y' && (|x| == |x'| || |y| == |y'|)
    ensures x == x' && y == y'
  {
    var t, t' := u + x + y, u + x' + y';
    assert |t| == |u| + |x| + |y| && |t'| == |u| + |x'| + |y'|;
    assert x == t[|u|..|u| + |x|] && x' == t'[|u|..|u| + |x'|];
    assert y == t[|u| + |x|..] && y' == t'[|u| + |x'|..];
  }
}
