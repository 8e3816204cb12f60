/** The excerpts that a pending diff shows: the ranges of its hunks and of what was revealed, merged. Ranges are closed,
    and a point is its offset in the buffer. */
module ExcerptRanges {
  import opened Patches

  predicate Covers(ranges: seq<Span>, x: int) {
    exists k | 0 <= k < |ranges| :: ranges[k].start <= x <= ranges[k].end
  }

  /** Some range covers both `x` and the point after it. */
  predicate CoversStep(ranges: seq<Span>, x: int) {
    exists k | 0 <= k < |ranges| :: ranges[k].start <= x < ranges[k].end
  }

  predicate AllProper(ranges: seq<Span>) {
    forall k | 0 <= k < |ranges| :: ranges[k].start <= ranges[k].end
  }

  /** Sorted, with every end strictly before the next start. */
  predicate AreMerged(ranges: seq<Span>) {
    forall k, m | 0 <= k < m < |ranges| :: ranges[k].end < ranges[m].start
  }

  ghost predicate SameCover(a: seq<Span>, b: seq<Span>) {
    && (forall x :: Covers(a, x) <==> Covers(b, x))
    && (forall x :: CoversStep(a, x) <==> CoversStep(b, x))
  }

  // ----- sorting by start and reversed end

  predicate KeyAtMost(a: Span, b: Span) {
    a.start < b.start || (a.start == b.start && a.end >= b.end)
  }

  predicate SortedByKey(ranges: seq<Span>) {
    forall k, m | 0 <= k < m < |ranges| :: KeyAtMost(ranges[k], ranges[m])
  }

  function Insert(r: Span, sorted: seq<Span>): seq<Span> {
    if sorted == [] || KeyAtMost(r, sorted[0]) then [r] + sorted else [sorted[0]] + Insert(r, sorted[1..])
  }

  function Sort(ranges: seq<Span>): seq<Span> {
    if ranges == [] then [] else Insert(ranges[0], Sort(ranges[1..]))
  }

  lemma {:induction false} InsertSorts(r: Span, sorted: seq<Span>)
    requires SortedByKey(sorted)
    ensures SortedByKey(Insert(r, sorted)) && multiset(Insert(r, sorted)) == multiset([r]) + multiset(sorted)
  {
    if sorted != [] && !KeyAtMost(r, sorted[0]) {
      var rest := Insert(r, sorted[1..]);
      InsertSorts(r, sorted[1..]);
      assert sorted == [sorted[0]] + sorted[1..];
      forall k | 0 <= k < |rest| ensures KeyAtMost(sorted[0], rest[k]) {
        assert rest[k] in multiset(rest);
        if rest[k] != r {
          var m :| 0 <= m < |sorted[1..]| && sorted[1..][m] == rest[k];
          assert sorted[m + 1] == rest[k];
        }
      }
    }
  }

  lemma {:induction false} SortSorts(ranges: seq<Span>)
    ensures SortedByKey(Sort(ranges)) && multiset(Sort(ranges)) == multiset(ranges)
  {
    if ranges != [] {
      SortSorts(ranges[1..]);
      InsertSorts(ranges[0], Sort(ranges[1..]));
      assert ranges == [ranges[0]] + ranges[1..];
    }
  }

  lemma PermutedCover(a: seq<Span>, b: seq<Span>)
    requires multiset(a) == multiset(b)
    ensures SameCover(a, b) && (AllProper(a) <==> AllProper(b))
  {
    MembersCover(a, b);
    MembersCover(b, a);
  }

  lemma MembersCover(a: seq<Span>, b: seq<Span>)
    requires multiset(a) == multiset(b)
    ensures AllProper(b) ==> AllProper(a)
    ensures forall x | Covers(a, x) :: Covers(b, x)
    ensures forall x | CoversStep(a, x) :: CoversStep(b, x)
  {
    forall k | 0 <= k < |a| ensures a[k] in b {
      assert a[k] in multiset(a);
    }
    forall x | Covers(a, x) ensures Covers(b, x) {
      var k :| 0 <= k < |a| && a[k].start <= x <= a[k].end;
      var m :| 0 <= m < |b| && b[m] == a[k];
    }
    forall x | CoversStep(a, x) ensures CoversStep(b, x) {
      var k :| 0 <= k < |a| && a[k].start <= x < a[k].end;
      var m :| 0 <= m < |b| && b[m] == a[k];
    }
  }

  // ----- merging

  function MergeWith(cur: Span, rest: seq<Span>): seq<Span>
    decreases |rest|
  {
    if rest == [] then [cur]
    else if cur.end >= rest[0].start then MergeWith(Span(cur.start, if cur.end >= rest[0].end then cur.end else rest[0].end), rest[1..])
    else [cur] + MergeWith(rest[0], rest[1..])
  }

  function Merged(ranges: seq<Span>): seq<Span> {
    if ranges == [] then [] else MergeWith(ranges[0], ranges[1..])
  }

  lemma CoverCons(r: Span, rest: seq<Span>)
    ensures forall x :: Covers([r] + rest, x) <==> r.start <= x <= r.end || Covers(rest, x)
    ensures forall x :: CoversStep([r] + rest, x) <==> r.start <= x < r.end || CoversStep(rest, x)
  {
    var all := [r] + rest;
    assert all[0] == r && forall k | 0 <= k < |rest| :: all[k + 1] == rest[k];
    forall x | Covers(all, x) ensures r.start <= x <= r.end || Covers(rest, x) {
      var k :| 0 <= k < |all| && all[k].start <= x <= all[k].end;
      assert k > 0 ==> rest[k - 1] == all[k];
    }
    forall x | CoversStep(all, x) ensures r.start <= x < r.end || CoversStep(rest, x) {
      var k :| 0 <= k < |all| && all[k].start <= x < all[k].end;
      assert k > 0 ==> rest[k - 1] == all[k];
    }
  }

  lemma {:induction false} MergeWithCanonical(cur: Span, rest: seq<Span>)
    requires cur.start <= cur.end && AllProper(rest)
    requires forall k | 0 <= k < |rest| :: cur.start <= rest[k].start
    requires forall k, m | 0 <= k < m < |rest| :: rest[k].start <= rest[m].start
    ensures var out := MergeWith(cur, rest);
      out != [] && out[0].start == cur.start && AreMerged(out) && AllProper(out) && SameCover(out, [cur] + rest)
    decreases |rest|
  {
    hide Covers, CoversStep;
    if rest == [] {
      assert [cur] + rest == [cur];
    } else {
      var next, later := rest[0], rest[1..];
      assert rest == [next] + later;
      CoverCons(cur, rest);
      CoverCons(next, later);
      if cur.end >= next.start {
        var joined := Span(cur.start, if cur.end >= next.end then cur.end else next.end);
        MergeWithCanonical(joined, later);
        CoverCons(joined, later);
      } else {
        var out := MergeWith(next, later);
        MergeWithCanonical(next, later);
        CoverCons(cur, out);
        MergedCons(cur, out);
      }
    }
  }

  lemma MergedCons(r: Span, out: seq<Span>)
    requires r.start <= r.end && out != [] && AreMerged(out) && AllProper(out) && r.end < out[0].start
    ensures AreMerged([r] + out) && AllProper([r] + out)
  {
    var all := [r] + out;
    forall k, m | 0 <= k < m < |all| ensures all[k].end < all[m].start {
      assert all[m] == out[m - 1];
      assert k > 0 ==> all[k] == out[k - 1];
      assert m > 1 ==> out[0].end < out[m - 1].start;
    }
  }

  /** The excerpt ranges: sorted, apart, and covering what the hunks and the revealed ranges cover. */
  method ExcerptRanges(hunks: seq<Span>, revealed: seq<Span>) returns (merged: seq<Span>)
    requires AllProper(hunks) && AllProper(revealed)
    ensures AreMerged(merged) && AllProper(merged) && SameCover(merged, hunks + revealed)
  {
    hide SameCover, Covers, CoversStep, MergeWith, Merged, Sort, SortedByKey, AreMerged;
    SortSorts(hunks + revealed);
    PermutedCover(Sort(hunks + revealed), hunks + revealed);
    var ranges := Sort(hunks + revealed);
    MergedCanonical(ranges);
    SameCoverTransitive(Merged(ranges), ranges, hunks + revealed);
    merged := [];
    var k := 0;
    assert ranges[0..] == ranges;
    while k < |ranges|
      invariant k <= |ranges| && merged + Merged(ranges[k..]) == Merged(ranges)
    {
      var range := ranges[k];
      MergeBegins(ranges[k..]);
      assert ranges[k..][1..] == ranges[k + 1..];
      k := k + 1;
      while k < |ranges|
        invariant k <= |ranges| && merged + MergeWith(range, ranges[k..]) == Merged(ranges)
        decreases |ranges| - k
      {
        assert ranges[k..][1..] == ranges[k + 1..];
        if range.end >= ranges[k].start {
          MergeStep(range, ranges[k..]);
          range := Span(range.start, if range.end >= ranges[k].end then range.end else ranges[k].end);
          k := k + 1;
        } else {
          break;
        }
      }
      MergeStops(range, ranges[k..]);
      merged := merged + [range];
    }
    MergeBegins(ranges[k..]);
    assert merged + [] == merged;
  }

  lemma MergedCanonical(ranges: seq<Span>)
    requires SortedByKey(ranges) && AllProper(ranges)
    ensures AreMerged(Merged(ranges)) && AllProper(Merged(ranges)) && SameCover(Merged(ranges), ranges)
  {
    if ranges != [] {
      MergeWithCanonical(ranges[0], ranges[1..]);
      assert [ranges[0]] + ranges[1..] == ranges;
    }
  }

  lemma SameCoverTransitive(a: seq<Span>, b: seq<Span>, c: seq<Span>)
    requires SameCover(a, b) && SameCover(b, c)
    ensures SameCover(a, c)
  {
  }

  lemma MergeBegins(ranges: seq<Span>)
    ensures Merged(ranges) == if ranges == [] then [] else MergeWith(ranges[0], ranges[1..])
  {
  }

  lemma MergeStep(range: Span, rest: seq<Span>)
    requires rest != [] && range.end >= rest[0].start
    ensures MergeWith(range, rest)
         == MergeWith(Span(range.start, if range.end >= rest[0].end then range.end else rest[0].end), rest[1..])
  {
  }

  lemma MergeStops(range: Span, rest: seq<Span>)
    requires rest != [] ==> range.end < rest[0].start
    ensures MergeWith(range, rest) == [range] + Merged(rest)
  {
  }

  // ----- the result is canonical

  lemma CoverFrom(ranges: seq<Span>, x: int)
    requires AreMerged(ranges) && AllProper(ranges) && ranges != [] && (Covers(ranges, x) || CoversStep(ranges, x))
    ensures ranges[0].start <= x
  {
    var k :| 0 <= k < |ranges| && ranges[k].start <= x <= ranges[k].end;
    assert k > 0 ==> ranges[0].end < ranges[k].start;
  }

  lemma StepsOfFirst(ranges: seq<Span>)
    requires AreMerged(ranges) && AllProper(ranges) && ranges != []
    ensures Covers(ranges, ranges[0].start) && !CoversStep(ranges, ranges[0].end)
    ensures forall x | ranges[0].start <= x < ranges[0].end :: CoversStep(ranges, x)
  {
    assert forall k | 0 < k < |ranges| :: ranges[0].end < ranges[k].start;
  }

  /** Ranges that are apart are determined by the points they cover: the excerpts depend neither on the order of the
      hunks, nor on which ranges are hunks and which were revealed, nor on how they overlap. */
  lemma {:induction false} CanonicalCover(a: seq<Span>, b: seq<Span>)
    requires AreMerged(a) && AllProper(a) && AreMerged(b) && AllProper(b) && SameCover(a, b)
    ensures a == b
  {
    if a == [] || b == [] {
      if a != [] {
        StepsOfFirst(a);
      }
      if b != [] {
        StepsOfFirst(b);
      }
    } else {
      StepsOfFirst(a);
      StepsOfFirst(b);
      CoverFrom(a, b[0].start);
      CoverFrom(b, a[0].start);
      SameEnd(a, b);
      SameEnd(b, a);
      TailCover(a, b);
      CanonicalCover(a[1..], b[1..]);
      assert a == [a[0]] + a[1..] && b == [b[0]] + b[1..];
    }
  }

  lemma SameEnd(a: seq<Span>, b: seq<Span>)
    requires AreMerged(a) && AllProper(a) && AreMerged(b) && AllProper(b) && SameCover(a, b) && a != [] && b != []
    requires a[0].start == b[0].start
    ensures a[0].end <= b[0].end
  {
    StepsOfFirst(a);
    StepsOfFirst(b);
    var x := b[0].end;
    assert x < a[0].end ==> CoversStep(a, x);
  }

  lemma TailCover(a: seq<Span>, b: seq<Span>)
    requires AreMerged(a) && AllProper(a) && AreMerged(b) && AllProper(b) && SameCover(a, b) && a != [] && b != [] && a[0] == b[0]
    ensures AreMerged(a[1..]) && AllProper(a[1..]) && AreMerged(b[1..]) && AllProper(b[1..]) && SameCover(a[1..], b[1..])
  {
    TailFrom(a);
    TailFrom(b);
    hide Covers, CoversStep;
    CoverCons(a[0], a[1..]);
    CoverCons(b[0], b[1..]);
    assert a == [a[0]] + a[1..] && b == [b[0]] + b[1..];
  }

  lemma TailFrom(a: seq<Span>)
    requires AreMerged(a) && AllProper(a) && a != []
    ensures AreMerged(a[1..]) && AllProper(a[1..])
    ensures forall x | Covers(a[1..], x) || CoversStep(a[1..], x) :: a[0].end < x
  {
    assert forall k | 0 <= k < |a[1..]| :: a[1..][k] == a[k + 1];
    forall x | Covers(a[1..], x) || CoversStep(a[1..], x) ensures a[0].end < x {
      var k :| 0 <= k < |a[1..]| && a[1..][k].start <= x <= a[1..][k].end;
      assert a[0].end < a[k + 1].start;
    }
  }
}
