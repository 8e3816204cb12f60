/** The transport theorem. When user edits have been carried back into the base, the hunks that are left
    under review are the old ones, widened only by the edits that conflict with them. */
module Transport {
  import opened Patches
  import opened Rebase

  /** One hunk of the rebased patch. It takes `base` of the new base text to `text` of the new buffer text.
      It comes from `hunks` of the old patch and the `edits` that conflict with them, which together cover
      the rows `mid` of the old snapshot; `home` are the rows of the old base those stand for. */
  datatype Rebased = Rebased(base: Span, text: Span, home: Span, mid: Span, hunks: Patch, edits: Patch)

  function Last(p: Patch): Edit
    requires p != []
  {
    p[|p| - 1]
  }

  /** A hunk nothing conflicts with. `applied` is how far the new base has moved, `moved` how far the buffer. */
  function Alone(h: Edit, applied: int, moved: int): Rebased {
    Rebased(h.before.Shift(applied), h.after.Shift(moved), h.before, h.after, [h], [])
  }

  /** Hunks and edits that are linked by conflicts, as one hunk. */
  function Joined(hunks: Patch, edits: Patch, applied: int): Rebased
    requires hunks != [] && edits != []
  {
    var mid := Span(Min(hunks[0].after.start, edits[0].before.start), Max(Last(hunks).after.end, Last(edits).before.end));
    var home := Span(hunks[0].before.start - (hunks[0].after.start - mid.start),
                     Last(hunks).before.end + (mid.end - Last(hunks).after.end));
    var text := Span(edits[0].after.start - (edits[0].before.start - mid.start),
                     Last(edits).after.end + (mid.end - Last(edits).before.end));
    Rebased(home.Shift(applied), text, home, mid, hunks, edits)
  }

  /** How many hunks and how many edits the conflict of the first hunk with the first edit links together. */
  function Reach(patch: Patch, edits: Patch): (r: (nat, nat))
    requires patch != [] && edits != []
    ensures 1 <= r.0 <= |patch| && 1 <= r.1 <= |edits|
    decreases |patch| + |edits|
  {
    if |edits| > 1 && Conflicts(edits[1], patch[0]) then
      var (x, y) := Reach(patch, edits[1..]); (x, y + 1)
    else if |patch| > 1 && Conflicts(edits[0], patch[1]) then
      var (x, y) := Reach(patch[1..], edits); (x + 1, y)
    else (1, 1)
  }

  /** The rebased patch. */
  function RebasedPatch(patch: Patch, edits: Patch, applied: int, moved: int): seq<Rebased>
    decreases |patch| + |edits|
  {
    if patch == [] then []
    else if edits != [] && EndsBefore(edits[0], patch[0]) then
      RebasedPatch(patch, edits[1..], applied + edits[0].Growth(), moved + edits[0].Growth())
    else if edits == [] || StartsAfter(edits[0], patch[0]) then
      [Alone(patch[0], applied, moved)] + RebasedPatch(patch[1..], edits, applied, moved)
    else
      var (x, y) := Reach(patch, edits);
      [Joined(patch[..x], edits[..y], applied)]
      + RebasedPatch(patch[x..], edits[y..], applied, moved + TotalGrowth(edits[..y]))
  }

  function PatchOf(rs: seq<Rebased>): (p: Patch)
    ensures |p| == |rs|
  {
    seq(|rs|, k requires 0 <= k < |rs| => Edit(rs[k].base, rs[k].text))
  }

  function HunksOf(rs: seq<Rebased>): Patch {
    if rs == [] then [] else rs[0].hunks + HunksOf(rs[1..])
  }

  function EditsOf(rs: seq<Rebased>): Patch {
    if rs == [] then [] else rs[0].edits + EditsOf(rs[1..])
  }

  ghost predicate IsHit(h: Edit, edits: Patch) {
    exists m | 0 <= m < |edits| :: Conflicts(edits[m], h)
  }

  ghost predicate Hits(e: Edit, hunks: Patch) {
    exists k | 0 <= k < |hunks| :: Conflicts(e, hunks[k])
  }

  /** Every hunk conflicts with one of the edits and every edit with one of the hunks. */
  ghost predicate Linked(hunks: Patch, edits: Patch) {
    && (forall k {:trigger IsHit(hunks[k], edits)} | 0 <= k < |hunks| :: IsHit(hunks[k], edits))
    && (forall m {:trigger Hits(edits[m], hunks)} | 0 <= m < |edits| :: Hits(edits[m], hunks))
  }

  /** What a hunk of the rebased patch owes to the old one. */
  ghost predicate Widened<X>(r: Rebased, base: seq<X>, snap: seq<X>, text: seq<X>, newBase: seq<X>) {
    && r.hunks != [] && Within(r.base, newBase) && Within(r.text, text) && Within(r.home, base) && Within(r.mid, snap)
    && Slice(newBase, r.base) == Slice(base, r.home)
    && (r.edits == [] ==>
          && |r.hunks| == 1 && r.home == r.hunks[0].before && r.mid == r.hunks[0].after
          && Slice(text, r.text) == Slice(snap, r.mid))
    && (r.edits != [] ==>
          && Linked(r.hunks, r.edits)
          && r == Joined(r.hunks, r.edits, r.base.start - r.home.start))
  }

  ghost predicate AllWidened<X>(rs: seq<Rebased>, base: seq<X>, snap: seq<X>, text: seq<X>, newBase: seq<X>) {
    forall k | 0 <= k < |rs| :: Widened(rs[k], base, snap, text, newBase)
  }

  // ----- a group of linked hunks and edits

  /** After the first `x` hunks and `y` edits, the others go on from one row of the snapshot. */
  ghost predicate GroupEnds<X>(patch: Patch, x: int, edits: Patch, y: int, base: seq<X>, snap: seq<X>, text: seq<X>) {
    && 1 <= x <= |patch| && 1 <= y <= |edits|
    && var h, e := patch[x - 1], edits[y - 1];
       var end := Max(h.after.end, e.before.end);
       && TakesFrom(patch[x..], base, snap, h.before.end + (end - h.after.end), end)
       && TakesFrom(edits[y..], snap, text, end, e.after.end + (end - e.before.end))
       && patch[0].before.start <= h.before.end && patch[0].after.start <= h.after.end
       && edits[0].before.start <= e.before.end && edits[0].after.start <= e.after.end
  }

  /** The first edit of `p` lies in both texts, and the others take them on from its ends. */
  ghost predicate Heads<X>(p: Patch, a: seq<X>, b: seq<X>) {
    && p != [] && Within(p[0].before, a) && Within(p[0].after, b)
    && TakesFrom(p[1..], a, b, p[0].before.end, p[0].after.end) && Separated(p)
  }

  lemma HeadsTail<X>(p: Patch, a: seq<X>, b: seq<X>)
    requires Heads(p, a, b) && |p| > 1
    ensures Heads(p[1..], a, b) && p[1..][0] == p[1]
    ensures p[0].before.end < p[1].before.start && p[0].after.end < p[1].after.start
  {
    assert Separated(p[1..]) by {
      forall k, m | 0 <= k < m < |p[1..]|
        ensures p[1..][k].after.end < p[1..][m].after.start && p[1..][k].before.end < p[1..][m].before.start
      {
        assert p[1..][k] == p[k + 1] && p[1..][m] == p[m + 1];
      }
    }
  }

  lemma {:induction false} GroupEnd<X>(patch: Patch, edits: Patch, base: seq<X>, snap: seq<X>, text: seq<X>)
    requires Heads(patch, base, snap) && Heads(edits, snap, text) && Conflicts(edits[0], patch[0])
    ensures GroupEnds(patch, Reach(patch, edits).0, edits, Reach(patch, edits).1, base, snap, text)
    decreases |patch| + |edits|
  {
    if |edits| > 1 && Conflicts(edits[1], patch[0]) {
      HeadsTail(edits, snap, text);
      GroupEnd(patch, edits[1..], base, snap, text);
      GroupTakesEdit(patch, Reach(patch, edits[1..]).0, edits, Reach(patch, edits[1..]).1, base, snap, text);
    } else if |patch| > 1 && Conflicts(edits[0], patch[1]) {
      HeadsTail(patch, base, snap);
      GroupEnd(patch[1..], edits, base, snap, text);
      GroupTakesHunk(patch, Reach(patch[1..], edits).0, edits, Reach(patch[1..], edits).1, base, snap, text);
    } else {
      GroupStops(patch, edits, base, snap, text);
    }
  }

  lemma GroupTakesEdit<X>(patch: Patch, x: int, edits: Patch, y: int, base: seq<X>, snap: seq<X>, text: seq<X>)
    requires Heads(edits, snap, text) && |edits| > 1
    requires GroupEnds(patch, x, edits[1..], y, base, snap, text)
    ensures GroupEnds(patch, x, edits, y + 1, base, snap, text)
  {
    HeadsTail(edits, snap, text);
    assert edits[1..][y..] == edits[y + 1..];
  }

  lemma GroupTakesHunk<X>(patch: Patch, x: int, edits: Patch, y: int, base: seq<X>, snap: seq<X>, text: seq<X>)
    requires Heads(patch, base, snap) && |patch| > 1
    requires GroupEnds(patch[1..], x, edits, y, base, snap, text)
    ensures GroupEnds(patch, x + 1, edits, y, base, snap, text)
  {
    HeadsTail(patch, base, snap);
    assert patch[1..][x..] == patch[x + 1..];
  }

  lemma GroupStops<X>(patch: Patch, edits: Patch, base: seq<X>, snap: seq<X>, text: seq<X>)
    requires Heads(patch, base, snap) && Heads(edits, snap, text) && Conflicts(edits[0], patch[0])
    requires |edits| > 1 ==> !Conflicts(edits[1], patch[0])
    requires |patch| > 1 ==> !Conflicts(edits[0], patch[1])
    ensures GroupEnds(patch, 1, edits, 1, base, snap, text)
  {
    hide Reach, TakesFrom;
    var h, e := patch[0], edits[0];
    var end := Max(h.after.end, e.before.end);
    if |edits| > 1 {
      HeadsTail(edits, snap, text);
      TakesHead(edits[1..], snap, text, e.before.end, e.after.end);
    }
    if |patch| > 1 {
      HeadsTail(patch, base, snap);
      TakesHead(patch[1..], base, snap, h.before.end, h.after.end);
    }
    hide Separated, TakesFrom;
    Advance(patch[1..], base, snap, h.before.end, h.after.end, end - h.after.end);
    Advance(edits[1..], snap, text, e.before.end, e.after.end, end - e.before.end);
  }

  // ----- what a group leaves out

  /** Leaving out the first `x` hunks and `y` edits takes those edits out of the blocked ones, and changes the
      transported ones only by moving the hunks' growth into the shift. */
  ghost predicate Dropped(patch: Patch, x: int, edits: Patch, y: int, shift: int) {
    && 1 <= x <= |patch| && 1 <= y <= |edits|
    && Transported(patch, edits, shift) == Transported(patch[x..], edits[y..], shift + TotalGrowth(patch[..x]))
    && Blocked(patch, edits) == edits[..y] + Blocked(patch[x..], edits[y..])
  }

  predicate AllStartAfter(edits: Patch, from: nat, h: Edit) {
    forall m | from <= m < |edits| :: StartsAfter(edits[m], h)
  }

  lemma {:induction false} GroupDropped(patch: Patch, edits: Patch, shift: int)
    requires patch != [] && edits != [] && Conflicts(edits[0], patch[0])
    requires Proper(patch) && Proper(edits) && Separated(edits)
    ensures Dropped(patch, Reach(patch, edits).0, edits, Reach(patch, edits).1, shift)
    decreases |patch| + |edits|
  {
    if |edits| > 1 && Conflicts(edits[1], patch[0]) {
      SeparatedSuffix(edits, 1);
      GroupDropped(patch, edits[1..], shift);
      DroppedEdit(patch, Reach(patch, edits[1..]).0, edits, Reach(patch, edits[1..]).1, shift);
    } else if |patch| > 1 && Conflicts(edits[0], patch[1]) {
      LaterEditsAfter(patch[0], edits);
      GroupDropped(patch[1..], edits, shift + patch[0].Growth());
      DroppedHunk(patch, Reach(patch[1..], edits).0, edits, Reach(patch[1..], edits).1, shift);
    } else {
      LaterEditsAfter(patch[0], edits);
      DroppedFirst(patch, edits, shift);
    }
  }

  /** The edits after a conflicting one that do not conflict with its hunk lie after the hunk. */
  lemma LaterEditsAfter(h: Edit, edits: Patch)
    requires edits != [] && Proper(edits) && Separated(edits) && Conflicts(edits[0], h) && h.after.start <= h.after.end
    requires |edits| > 1 ==> !Conflicts(edits[1], h)
    ensures AllStartAfter(edits, 1, h)
  {
  }

  lemma BlockedFirst(patch: Patch, edits: Patch, shift: int)
    requires patch != [] && edits != [] && Conflicts(edits[0], patch[0])
    ensures Transported(patch, edits, shift) == Transported(patch, edits[1..], shift)
    ensures Blocked(patch, edits) == [edits[0]] + Blocked(patch, edits[1..])
  {
    assert !Free(patch, edits[0]);
  }

  lemma DroppedEdit(patch: Patch, x: int, edits: Patch, y: int, shift: int)
    requires patch != [] && |edits| > 1 && Conflicts(edits[0], patch[0]) && Dropped(patch, x, edits[1..], y, shift)
    ensures Dropped(patch, x, edits, y + 1, shift)
  {
    hide Transported, Blocked, Free, Conflicts, TotalGrowth;
    BlockedFirst(patch, edits, shift);
    assert edits[1..][y..] == edits[y + 1..];
    assert edits[..y + 1] == [edits[0]] + edits[1..][..y];
  }

  lemma DroppedHunk(patch: Patch, x: int, edits: Patch, y: int, shift: int)
    requires |patch| > 1 && edits != [] && Conflicts(edits[0], patch[1]) && AllStartAfter(edits, 1, patch[0])
    requires Dropped(patch[1..], x, edits, y, shift + patch[0].Growth())
    ensures Dropped(patch, x + 1, edits, y, shift)
  {
    assert patch[1..][0] == patch[1];
    assert !Free(patch[1..], edits[0]);
    DropHunk(patch, edits, shift);
    hide Transported, Blocked, Free, Conflicts;
    assert patch[1..][x..] == patch[x + 1..];
    assert patch[..x + 1] == [patch[0]] + patch[1..][..x];
  }

  lemma DroppedFirst(patch: Patch, edits: Patch, shift: int)
    requires patch != [] && edits != [] && Conflicts(edits[0], patch[0]) && AllStartAfter(edits, 1, patch[0])
    ensures Dropped(patch, 1, edits, 1, shift)
  {
    BlockedFirst(patch, edits, shift);
    DropHunk(patch, edits[1..], shift);
    hide Transported, Blocked, Free, Conflicts;
    assert edits[..1] == [edits[0]];
    assert patch[..1] == [patch[0]] + [];
    assert TotalGrowth([patch[0]]) == patch[0].Growth() + TotalGrowth([]);
  }

  lemma {:induction false} GroupLinked(patch: Patch, edits: Patch)
    requires patch != [] && edits != [] && Conflicts(edits[0], patch[0])
    ensures Linked(patch[..Reach(patch, edits).0], edits[..Reach(patch, edits).1])
    decreases |patch| + |edits|
  {
    if |edits| > 1 && Conflicts(edits[1], patch[0]) {
      GroupLinked(patch, edits[1..]);
      var (x, y) := Reach(patch, edits[1..]);
      LinkEdit(patch[..x], edits[0], edits[1..][..y]);
      assert edits[..y + 1] == [edits[0]] + edits[1..][..y];
    } else if |patch| > 1 && Conflicts(edits[0], patch[1]) {
      GroupLinked(patch[1..], edits);
      var (x, y) := Reach(patch[1..], edits);
      LinkHunk(patch[0], patch[1..][..x], edits[..y]);
      assert patch[..x + 1] == [patch[0]] + patch[1..][..x];
    }
  }

  lemma LinkEdit(hunks: Patch, e: Edit, edits: Patch)
    requires hunks != [] && Linked(hunks, edits) && Conflicts(e, hunks[0])
    ensures Linked(hunks, [e] + edits)
  {
    var all := [e] + edits;
    forall k | 0 <= k < |hunks| ensures IsHit(hunks[k], all) {
      assert IsHit(hunks[k], edits);
      var m :| 0 <= m < |edits| && Conflicts(edits[m], hunks[k]);
      assert all[m + 1] == edits[m];
    }
    forall m | 0 <= m < |all| ensures Hits(all[m], hunks) {
      if m > 0 {
        assert all[m] == edits[m - 1] && Hits(edits[m - 1], hunks);
      }
    }
  }

  lemma LinkHunk(h: Edit, hunks: Patch, edits: Patch)
    requires edits != [] && Linked(hunks, edits) && Conflicts(edits[0], h)
    ensures Linked([h] + hunks, edits)
  {
    var all := [h] + hunks;
    forall m | 0 <= m < |edits| ensures Hits(edits[m], all) {
      assert Hits(edits[m], hunks);
      var k :| 0 <= k < |hunks| && Conflicts(edits[m], hunks[k]);
      assert all[k + 1] == hunks[k];
    }
    forall k | 0 <= k < |all| ensures IsHit(all[k], edits) {
      if k > 0 {
        assert all[k] == hunks[k - 1] && IsHit(hunks[k - 1], edits);
      }
    }
  }

  // ----- the theorem

  /** `rs` takes the new base `newBase` to `text` from positions `i` and `t` on. */
  ghost predicate Carried<X>(rs: seq<Rebased>, base: seq<X>, snap: seq<X>, text: seq<X>, newBase: seq<X>, i: int, t: int) {
    TakesFrom(PatchOf(rs), newBase, text, i, t) && AllWidened(rs, base, snap, text, newBase)
  }

  /** An applied edit: the new base gets the rows the text has. */
  lemma AppliedStep<X>(rs: seq<Rebased>, base: seq<X>, snap: seq<X>, text: seq<X>, pre: seq<X>, mid: seq<X>, rest: seq<X>,
                       t: int, t': int)
    requires 0 <= t <= t' <= |text| && mid == text[t..t']
    requires Carried(rs, base, snap, text, pre + mid + rest, |pre + mid|, t')
    ensures Carried(rs, base, snap, text, pre + (mid + rest), |pre|, t)
  {
    assert pre + mid + rest == pre + (mid + rest);
    AcceptedStep(PatchOf(rs), pre, mid, rest, text, t, t');
  }

  /** A hunk of the rebased patch in front of the others. */
  lemma HunkStep<X>(r: Rebased, rs: seq<Rebased>, base: seq<X>, snap: seq<X>, text: seq<X>, pre: seq<X>, rest: seq<X>,
                    i: int, t: int)
    requires Within(r.home, base) && 0 <= i <= r.home.start && Within(r.text, text) && 0 <= t <= r.text.start
    requires base[i..r.home.start] == text[t..r.text.start]
    requires r.base == r.home.Shift(|pre| - i)
    requires Carried(rs, base, snap, text, pre + base[i..r.home.end] + rest, |pre| + (r.home.end - i), r.text.end)
    requires r.hunks != [] && Within(r.mid, snap)
    requires r.edits == [] ==>
      |r.hunks| == 1 && r.home == r.hunks[0].before && r.mid == r.hunks[0].after && Slice(text, r.text) == Slice(snap, r.mid)
    requires r.edits != [] ==> Linked(r.hunks, r.edits) && r == Joined(r.hunks, r.edits, |pre| - i)
    ensures Carried([r] + rs, base, snap, text, pre + (base[i..r.home.end] + rest), |pre|, t)
  {
    var gap, mid := base[i..r.home.start], Slice(base, r.home);
    assert base[i..r.home.end] == gap + mid;
    var newBase := pre + gap + mid + rest;
    assert pre + base[i..r.home.end] + rest == newBase && pre + (base[i..r.home.end] + rest) == newBase;
    LeftStep(Edit(r.home, r.text), PatchOf(rs), pre, gap, mid, rest, text, i, t);
    assert PatchOf([r] + rs) == [Edit(r.base, r.text)] + PatchOf(rs);
    assert Slice(newBase, r.base) == mid;
    WidenedCons(r, rs, base, snap, text, newBase);
  }

  lemma WidenedCons<X>(r: Rebased, rs: seq<Rebased>, base: seq<X>, snap: seq<X>, text: seq<X>, newBase: seq<X>)
    requires Widened(r, base, snap, text, newBase) && AllWidened(rs, base, snap, text, newBase)
    ensures AllWidened([r] + rs, base, snap, text, newBase)
  {
  }

  lemma {:induction false} PrefixGrowth<X>(p: Patch, y: nat, a: seq<X>, b: seq<X>, i: int, j: int)
    requires TakesFrom(p, a, b, i, j) && 0 < y <= |p|
    ensures p[y - 1].after.end - p[y - 1].before.end == j - i + TotalGrowth(p[..y])
    decreases y
  {
    assert |a[i..p[0].before.start]| == |b[j..p[0].after.start]|;
    assert p[..y][0] == p[0] && p[..y][1..] == p[1..][..y - 1];
    if y > 1 {
      PrefixGrowth(p[1..], y - 1, a, b, p[0].before.end, p[0].after.end);
      assert p[1..][y - 2] == p[y - 1];
    } else {
      assert TotalGrowth(p[..1][1..]) == 0;
    }
  }

  lemma TransportFrom<X>(patch: Patch, edits: Patch, base: seq<X>, snap: seq<X>, text: seq<X>,
                                            i: int, j: int, t: int, pre: seq<X>)
    requires TakesFrom(patch, base, snap, i, j) && Separated(patch)
    requires TakesFrom(edits, snap, text, j, t) && Separated(edits)
    ensures Fits(Transported(patch, edits, j - i), base, text, i)
    ensures Carried(RebasedPatch(patch, edits, |pre| - i, t - j), base, snap, text,
                    pre + ApplyFrom(Transported(patch, edits, j - i), base, text, i), |pre|, t)
    decreases |patch| + |edits|
  {
    TakesApplies(edits, snap, text, j, t);
    TransportFits(patch, edits, base, snap, text, i, j);
    if patch == [] && edits == [] {
      assert base[i..] == snap[j..] == text[t..];
      assert (pre + base[i..])[|pre|..] == base[i..];
    } else if edits != [] && (patch == [] || EndsBefore(edits[0], patch[0])) {
      TransportEdit(patch, edits, base, snap, text, i, j, t, pre);
    } else if edits == [] || StartsAfter(edits[0], patch[0]) {
      TransportAlone(patch, edits, base, snap, text, i, j, t, pre);
    } else {
      TransportGroup(patch, edits, base, snap, text, i, j, t, pre);
    }
  }

  lemma TransportEdit<X>(patch: Patch, edits: Patch, base: seq<X>, snap: seq<X>, text: seq<X>,
                                            i: int, j: int, t: int, pre: seq<X>)
    requires TakesFrom(patch, base, snap, i, j) && Separated(patch)
    requires TakesFrom(edits, snap, text, j, t) && Separated(edits)
    requires edits != [] && (patch == [] || EndsBefore(edits[0], patch[0]))
    requires Fits(Transported(patch, edits, j - i), base, text, i)
    ensures Carried(RebasedPatch(patch, edits, |pre| - i, t - j), base, snap, text,
                    pre + ApplyFrom(Transported(patch, edits, j - i), base, text, i), |pre|, t)
    decreases |patch| + |edits|, 0
  {
    hide Separated, TakesFrom, Fits, Transported, ApplyFrom, Free, Moved, Carried;
    var e, applied, moved := edits[0], |pre| - i, t - j;
    var mid := EditPart(patch, edits, base, snap, text, i, j, t);
    var i' := e.before.end - (j - i);
    TransportFrom(patch, edits[1..], base, snap, text, i', e.before.end, e.after.end, pre + mid);
    AppliedStep(RebasedPatch(patch, edits[1..], applied + e.Growth(), moved + e.Growth()), base, snap, text, pre, mid,
                ApplyFrom(Transported(patch, edits[1..], j - i), base, text, i'), t, e.after.end);
  }

  lemma {:induction false} TransportAlone<X>(patch: Patch, edits: Patch, base: seq<X>, snap: seq<X>, text: seq<X>,
                                             i: int, j: int, t: int, pre: seq<X>)
    requires TakesFrom(patch, base, snap, i, j) && Separated(patch)
    requires TakesFrom(edits, snap, text, j, t) && Separated(edits)
    requires patch != [] && (edits == [] || (StartsAfter(edits[0], patch[0]) && !EndsBefore(edits[0], patch[0])))
    requires Fits(Transported(patch, edits, j - i), base, text, i)
    ensures Carried(RebasedPatch(patch, edits, |pre| - i, t - j), base, snap, text,
                    pre + ApplyFrom(Transported(patch, edits, j - i), base, text, i), |pre|, t)
    decreases |patch| + |edits|, 0
  {
    hide Separated, TakesFrom, Fits, Transported, ApplyFrom, Free, Moved, Carried;
    var h, applied, moved := patch[0], |pre| - i, t - j;
    var r := AlonePart(patch, edits, base, snap, text, i, j, t, applied);
    AloneApplies(patch, edits, base, snap, text, i, j, t);
    TransportFrom(patch[1..], edits, base, snap, text, h.before.end, h.after.end, r.text.end, pre + base[i..h.before.end]);
    HunkStep(r, RebasedPatch(patch[1..], edits, applied, moved), base, snap, text, pre,
             ApplyFrom(Transported(patch[1..], edits, h.after.end - h.before.end), base, text, h.before.end), i, t);
  }

  lemma {:induction false} TransportGroup<X>(patch: Patch, edits: Patch, base: seq<X>, snap: seq<X>, text: seq<X>,
                                             i: int, j: int, t: int, pre: seq<X>)
    requires TakesFrom(patch, base, snap, i, j) && Separated(patch)
    requires TakesFrom(edits, snap, text, j, t) && Separated(edits)
    requires patch != [] && edits != [] && Conflicts(edits[0], patch[0])
    requires Fits(Transported(patch, edits, j - i), base, text, i)
    ensures Carried(RebasedPatch(patch, edits, |pre| - i, t - j), base, snap, text,
                    pre + ApplyFrom(Transported(patch, edits, j - i), base, text, i), |pre|, t)
    decreases |patch| + |edits|, 0
  {
    hide Separated, TakesFrom, Fits, Transported, ApplyFrom, Free, Moved, Carried;
    var (x, y) := Reach(patch, edits);
    var applied, moved := |pre| - i, t - j;
    var r := GroupPart(patch, edits, base, snap, text, i, j, t, applied);
    GroupApplies(patch, edits, base, snap, text, i, j, t, r);
    TransportFrom(patch[x..], edits[y..], base, snap, text, r.home.end, r.mid.end, r.text.end, pre + base[i..r.home.end]);
    HunkStep(r, RebasedPatch(patch[x..], edits[y..], applied, moved + TotalGrowth(edits[..y])), base, snap, text, pre,
             ApplyFrom(Transported(patch[x..], edits[y..], r.mid.end - r.home.end), base, text, r.home.end), i, t);
  }

  /** The rows of the new base up to the end of an applied edit. */
  lemma EditPart<X>(patch: Patch, edits: Patch, base: seq<X>, snap: seq<X>, text: seq<X>, i: int, j: int, t: int)
    returns (mid: seq<X>)
    requires TakesFrom(patch, base, snap, i, j) && Separated(patch)
    requires TakesFrom(edits, snap, text, j, t) && Separated(edits)
    requires edits != [] && (patch == [] || EndsBefore(edits[0], patch[0]))
    requires Fits(Transported(patch, edits, j - i), base, text, i)
    ensures var e := edits[0];
      && 0 <= t <= e.after.end <= |text| && mid == text[t..e.after.end]
      && |mid| == e.before.end - j + e.Growth() && e.after.end - e.before.end == t - j + e.Growth()
      && TakesFrom(patch, base, snap, e.before.end - (j - i), e.before.end)
      && Fits(Transported(patch, edits[1..], j - i), base, text, e.before.end - (j - i))
      && ApplyFrom(Transported(patch, edits, j - i), base, text, i)
         == mid + ApplyFrom(Transported(patch, edits[1..], j - i), base, text, e.before.end - (j - i))
      && Separated(edits[1..]) && TakesFrom(edits[1..], snap, text, e.before.end, e.after.end)
  {
    hide Separated, Conflicts, Free, Moved, StartsAfter, EndsBefore, Transported, TakesFrom, Fits, ApplyFrom;
    var e, s := edits[0], j - i;
    TakesBounds(patch, base, snap, i, j);
    TakesHead(edits, snap, text, j, t);
    FirstFree(patch, e, base, snap, i, j);
    TransportedCases(patch, edits, s);
    mid := base[i..e.before.start - s] + Slice(text, e.after);
    StretchAndRows(base[i..e.before.start - s], text, t, e.after);
    ApplyCons(Edit(e.before.Shift(-s), e.after), Transported(patch, edits[1..], s), base, text, i);
  }

  lemma StretchAndRows<X>(gap: seq<X>, text: seq<X>, t: int, rows: Span)
    requires Within(rows, text) && 0 <= t <= rows.start && gap == text[t..rows.start]
    ensures gap + Slice(text, rows) == text[t..rows.end]
  {
  }

  /** A hunk nothing conflicts with. */
  lemma AlonePart<X>(patch: Patch, edits: Patch, base: seq<X>, snap: seq<X>, text: seq<X>, i: int, j: int, t: int, applied: int)
    returns (r: Rebased)
    requires TakesFrom(patch, base, snap, i, j) && Separated(patch)
    requires TakesFrom(edits, snap, text, j, t) && Separated(edits)
    requires patch != [] && (edits == [] || StartsAfter(edits[0], patch[0]))
    ensures var h := patch[0];
      && r == Alone(h, applied, t - j)
      && 0 <= i <= h.before.start && Within(h.before, base) && Within(h.after, snap)
      && 0 <= t && Within(r.text, text) && t <= r.text.start
      && r.text.end - h.after.end == t - j
      && base[i..h.before.start] == text[t..r.text.start] && Slice(text, r.text) == Slice(snap, h.after)
      && Separated(patch[1..]) && TakesFrom(patch[1..], base, snap, h.before.end, h.after.end)
      && TakesFrom(edits, snap, text, h.after.end, r.text.end)
  {
    var h := patch[0];
    r := Alone(h, applied, t - j);
    SeparatedSuffix(patch, 1);
    hide Separated;
    Advance(edits, snap, text, j, t, h.after.start - j);
    Advance(edits, snap, text, h.after.start, r.text.start, h.after.Len());
  }

  lemma AloneApplies<X>(patch: Patch, edits: Patch, base: seq<X>, snap: seq<X>, text: seq<X>, i: int, j: int, t: int)
    requires TakesFrom(patch, base, snap, i, j) && Separated(patch)
    requires TakesFrom(edits, snap, text, j, t) && Separated(edits)
    requires patch != [] && (edits == [] || StartsAfter(edits[0], patch[0]))
    requires Fits(Transported(patch, edits, j - i), base, text, i)
    ensures var h := patch[0];
      && 0 <= i <= h.before.end <= |base|
      && Fits(Transported(patch[1..], edits, h.after.end - h.before.end), base, text, h.before.end)
      && ApplyFrom(Transported(patch, edits, j - i), base, text, i)
         == base[i..h.before.end] + ApplyFrom(Transported(patch[1..], edits, h.after.end - h.before.end), base, text, h.before.end)
  {
    var h := patch[0];
    TakesApplies(edits, snap, text, j, t);
    SeparatedSuffix(patch, 1);
    PassHunk(patch, edits, base, snap, text, i, j);
    assert TakesFrom(patch[1..], base, snap, h.before.end, h.after.end);
    hide Separated, Transported, Blocked, StartsAfter, TakesFrom, Fits, ApplyFrom;
    TransportFits(patch[1..], edits, base, snap, text, h.before.end, h.after.end);
    SkipTo(Transported(patch, edits, j - i), Transported(patch[1..], edits, h.after.end - h.before.end), base, text, i, h.before.end);
  }

  /** A group linked by conflicts. */
  lemma GroupPart<X>(patch: Patch, edits: Patch, base: seq<X>, snap: seq<X>, text: seq<X>, i: int, j: int, t: int, applied: int)
    returns (r: Rebased)
    requires TakesFrom(patch, base, snap, i, j) && Separated(patch)
    requires TakesFrom(edits, snap, text, j, t) && Separated(edits)
    requires patch != [] && edits != [] && Conflicts(edits[0], patch[0])
    ensures var (x, y) := Reach(patch, edits);
      && r == Joined(patch[..x], edits[..y], applied) && Linked(patch[..x], edits[..y])
      && Within(r.home, base) && 0 <= i <= r.home.start && Within(r.text, text) && 0 <= t <= r.text.start && Within(r.mid, snap)
      && base[i..r.home.start] == text[t..r.text.start]
      && r.text.end - r.mid.end == t - j + TotalGrowth(edits[..y])
      && r.mid.end - r.home.end == j - i + TotalGrowth(patch[..x])
      && Separated(patch[x..]) && TakesFrom(patch[x..], base, snap, r.home.end, r.mid.end)
      && Separated(edits[y..]) && TakesFrom(edits[y..], snap, text, r.mid.end, r.text.end)
  {
    var (x, y) := Reach(patch, edits);
    r := Joined(patch[..x], edits[..y], applied);
    GroupEnd(patch, edits, base, snap, text);
    GroupLinked(patch, edits);
    PrefixGrowth(patch, x, base, snap, i, j);
    PrefixGrowth(edits, y, snap, text, j, t);
    GroupStart(patch, x, edits, y, base, snap, text, i, j, t, applied);
    SeparatedSuffix(patch, x);
    SeparatedSuffix(edits, y);
  }

  /** The new base up to the end of a group. */
  lemma GroupApplies<X>(patch: Patch, edits: Patch, base: seq<X>, snap: seq<X>, text: seq<X>, i: int, j: int, t: int, r: Rebased)
    requires TakesFrom(patch, base, snap, i, j) && Separated(patch)
    requires TakesFrom(edits, snap, text, j, t) && Separated(edits)
    requires patch != [] && edits != [] && Conflicts(edits[0], patch[0])
    requires Fits(Transported(patch, edits, j - i), base, text, i)
    requires Within(r.home, base) && i <= r.home.start
    requires var (x, y) := Reach(patch, edits);
      && r.mid.end - r.home.end == j - i + TotalGrowth(patch[..x])
      && Separated(patch[x..]) && TakesFrom(patch[x..], base, snap, r.home.end, r.mid.end)
      && Separated(edits[y..]) && TakesFrom(edits[y..], snap, text, r.mid.end, r.text.end)
    ensures var (x, y) := Reach(patch, edits);
      && Fits(Transported(patch[x..], edits[y..], r.mid.end - r.home.end), base, text, r.home.end)
      && ApplyFrom(Transported(patch, edits, j - i), base, text, i)
         == base[i..r.home.end] + ApplyFrom(Transported(patch[x..], edits[y..], r.mid.end - r.home.end), base, text, r.home.end)
  {
    hide Separated, TakesFrom, Transported, ApplyFrom, Free, Moved, Proper;
    var (x, y) := Reach(patch, edits);
    TakesProper(patch, base, snap, i, j);
    TakesProper(edits, snap, text, j, t);
    GroupDropped(patch, edits, j - i);
    TakesApplies(edits[y..], snap, text, r.mid.end, r.text.end);
    TransportFits(patch[x..], edits[y..], base, snap, text, r.home.end, r.mid.end);
    SkipTo(Transported(patch, edits, j - i), Transported(patch[x..], edits[y..], r.mid.end - r.home.end), base, text, i, r.home.end);
  }

  lemma SkipTo<X>(p: Patch, q: Patch, a: seq<X>, b: seq<X>, i: int, i': int)
    requires p == q && Fits(p, a, b, i) && Fits(q, a, b, i') && i <= i'
    ensures ApplyFrom(p, a, b, i) == a[i..i'] + ApplyFrom(q, a, b, i')
  {
    ApplySkips(p, a, b, i, i');
  }

  /** A group starts at rows that stand for each other in the base, the snapshot and the text. */
  lemma GroupStart<X>(patch: Patch, x: int, edits: Patch, y: int, base: seq<X>, snap: seq<X>, text: seq<X>,
                      i: int, j: int, t: int, applied: int)
    requires TakesFrom(patch, base, snap, i, j) && TakesFrom(edits, snap, text, j, t)
    requires GroupEnds(patch, x, edits, y, base, snap, text)
    ensures var r := Joined(patch[..x], edits[..y], applied);
      && Within(r.home, base) && 0 <= i <= r.home.start && Within(r.text, text) && 0 <= t <= r.text.start && Within(r.mid, snap)
      && base[i..r.home.start] == text[t..r.text.start]
      && r.home.end - r.mid.end == patch[x - 1].before.end - patch[x - 1].after.end
      && r.text.end - r.mid.end == edits[y - 1].after.end - edits[y - 1].before.end
      && TakesFrom(patch[x..], base, snap, r.home.end, r.mid.end)
      && TakesFrom(edits[y..], snap, text, r.mid.end, r.text.end)
  {
    hide Reach, Separated, Conflicts, TakesFrom;
    var h, e := patch[x - 1], edits[y - 1];
    var end := Max(h.after.end, e.before.end);
    TakesBounds(patch[x..], base, snap, h.before.end + (end - h.after.end), end);
    TakesBounds(edits[y..], snap, text, end, e.after.end + (end - e.before.end));
    TakesHead(patch, base, snap, i, j);
    TakesHead(edits, snap, text, j, t);
    var k := Min(patch[0].after.start, edits[0].before.start) - j;
    Advance(patch, base, snap, i, j, k);
    Advance(edits, snap, text, j, t, k);
  }

  /** Every hunk is in exactly one group, every blocked edit too, in order. */
  lemma {:induction false} GroupsPartition(patch: Patch, edits: Patch, applied: int, moved: int)
    requires Separated(patch) && Proper(patch) && Separated(edits) && Proper(edits)
    ensures HunksOf(RebasedPatch(patch, edits, applied, moved)) == patch
    ensures EditsOf(RebasedPatch(patch, edits, applied, moved)) == Blocked(patch, edits)
    decreases |patch| + |edits|
  {
    hide Separated, Proper, Free, Transported, Conflicts;
    if patch == [] {
      NothingBlocks(edits);
    } else if edits != [] && EndsBefore(edits[0], patch[0]) {
      var e := edits[0];
      FreeFirst(patch, e, edits);
      SeparatedSuffix(edits, 1);
      ProperSuffix(edits, 1);
      GroupsPartition(patch, edits[1..], applied + e.Growth(), moved + e.Growth());
    } else if edits == [] || StartsAfter(edits[0], patch[0]) {
      SeparatedSuffix(patch, 1);
      ProperSuffix(patch, 1);
      GroupsPartition(patch[1..], edits, applied, moved);
      PassedBlocks(patch, edits);
      PartitionCons(Alone(patch[0], applied, moved), RebasedPatch(patch[1..], edits, applied, moved));
    } else {
      assert Conflicts(edits[0], patch[0]) by { ConflictsOtherwise(edits[0], patch[0]); }
      PartitionGroup(patch, edits, applied, moved);
    }
  }

  lemma NothingBlocks(edits: Patch)
    ensures Blocked([], edits) == []
  {
    NoneBlocked([], edits);
  }

  lemma PassedBlocks(patch: Patch, edits: Patch)
    requires Separated(edits) && Proper(edits) && patch != [] && (edits == [] || StartsAfter(edits[0], patch[0]))
    ensures Blocked(patch, edits) == Blocked(patch[1..], edits)
  {
    if edits != [] {
      AllAfter(edits, patch[0]);
    }
    DropHunk(patch, edits, 0);
  }

  lemma FreeFirst(patch: Patch, e: Edit, edits: Patch)
    requires Separated(patch) && Proper(patch) && Proper(edits) && edits != [] && e == edits[0]
    requires patch != [] && EndsBefore(e, patch[0])
    ensures Blocked(patch, edits) == Blocked(patch, edits[1..])
  {
    BeforeTheRest(patch, e);
  }

  lemma ConflictsOtherwise(e: Edit, h: Edit)
    requires !EndsBefore(e, h) && !StartsAfter(e, h)
    ensures Conflicts(e, h)
  {
  }

  lemma {:induction false} PartitionGroup(patch: Patch, edits: Patch, applied: int, moved: int)
    requires Separated(patch) && Proper(patch) && Separated(edits) && Proper(edits)
    requires patch != [] && edits != [] && Conflicts(edits[0], patch[0])
    ensures HunksOf(RebasedPatch(patch, edits, applied, moved)) == patch
    ensures EditsOf(RebasedPatch(patch, edits, applied, moved)) == Blocked(patch, edits)
    decreases |patch| + |edits|, 0
  {
    hide Separated, Proper, Free, Transported, Blocked, Reach, TotalGrowth;
    var (x, y) := Reach(patch, edits);
    GroupDropped(patch, edits, 0);
    SeparatedSuffix(patch, x);
    SeparatedSuffix(edits, y);
    ProperSuffix(patch, x);
    ProperSuffix(edits, y);
    GroupsPartition(patch[x..], edits[y..], applied, moved + TotalGrowth(edits[..y]));
    PartitionCons(Joined(patch[..x], edits[..y], applied),
                  RebasedPatch(patch[x..], edits[y..], applied, moved + TotalGrowth(edits[..y])));
    assert patch == patch[..x] + patch[x..];
  }

  lemma PartitionCons(r: Rebased, rs: seq<Rebased>)
    ensures HunksOf([r] + rs) == r.hunks + HunksOf(rs)
    ensures EditsOf([r] + rs) == r.edits + EditsOf(rs)
  {
    assert ([r] + rs)[1..] == rs;
  }

  /** The transport theorem. Applying the edits that conflict with no hunk to the base leaves a patch from the new
      base to the new text. Its hunks are made of the old ones, each in exactly one of them and in order; the edits
      not applied are shared out among them in the same way; and each is an old hunk with its old and new rows
      unchanged, or covers exactly a group of hunks and edits linked by conflicts. */
  lemma TransportTheorem<X>(patch: Patch, edits: Patch, base: seq<X>, snap: seq<X>, text: seq<X>)
    requires Takes(patch, base, snap) && Separated(patch)
    requires Takes(edits, snap, text) && Separated(edits)
    ensures Fits(Transported(patch, edits, 0), base, text, 0)
    ensures var newBase, rs := Apply(Transported(patch, edits, 0), base, text), RebasedPatch(patch, edits, 0, 0);
      && Takes(PatchOf(rs), newBase, text)
      && HunksOf(rs) == patch && EditsOf(rs) == Blocked(patch, edits)
      && AllWidened(rs, base, snap, text, newBase)
  {
    hide TakesFrom, Separated, Transported, RebasedPatch, Widened, ApplyFrom, Fits, Blocked, HunksOf, EditsOf;
    TransportFrom(patch, edits, base, snap, text, 0, 0, 0, []);
    var newBase := Apply(Transported(patch, edits, 0), base, text);
    assert [] + newBase == newBase;
    TakesProper(patch, base, snap, 0, 0);
    TakesProper(edits, snap, text, 0, 0);
    GroupsPartition(patch, edits, 0, 0);
  }

  lemma {:induction false} NoneBlocked(patch: Patch, edits: Patch)
    requires forall m | 0 <= m < |edits| :: Free(patch, edits[m])
    ensures Blocked(patch, edits) == []
  {
    if edits != [] {
      NoneBlocked(patch, edits[1..]);
    }
  }

  lemma {:induction false} SingleHunks(rs: seq<Rebased>)
    requires EditsOf(rs) == []
    requires forall k | 0 <= k < |rs| && rs[k].edits == [] :: |rs[k].hunks| == 1
    ensures |HunksOf(rs)| == |rs|
    ensures forall k | 0 <= k < |rs| :: rs[k].edits == [] && rs[k].hunks == [HunksOf(rs)[k]]
  {
    if rs != [] {
      assert |rs[0].edits| + |EditsOf(rs[1..])| == 0;
      SingleHunks(rs[1..]);
    }
  }

  /** Every hunk of `hunks` has the base rows and the new rows of the same hunk of `patch`. */
  ghost predicate KeepRows<X>(patch: Patch, hunks: Patch, base: seq<X>, snap: seq<X>, newBase: seq<X>, text: seq<X>) {
    && |hunks| == |patch|
    && forall k | 0 <= k < |patch| ::
         && Within(hunks[k].before, newBase) && Within(hunks[k].after, text)
         && Within(patch[k].before, base) && Within(patch[k].after, snap)
         && Slice(newBase, hunks[k].before) == Slice(base, patch[k].before)
         && Slice(text, hunks[k].after) == Slice(snap, patch[k].after)
  }

  /** If nothing conflicts, every hunk keeps exactly its old rows and its new rows. */
  lemma NoConflictsKeepHunks<X>(patch: Patch, edits: Patch, base: seq<X>, snap: seq<X>, text: seq<X>)
    requires Takes(patch, base, snap) && Separated(patch)
    requires Takes(edits, snap, text) && Separated(edits)
    requires forall m | 0 <= m < |edits| :: Free(patch, edits[m])
    ensures Fits(Transported(patch, edits, 0), base, text, 0)
    ensures var newBase, rebased := Apply(Transported(patch, edits, 0), base, text), PatchOf(RebasedPatch(patch, edits, 0, 0));
      Takes(rebased, newBase, text) && KeepRows(patch, rebased, base, snap, newBase, text)
  {
    TransportTheorem(patch, edits, base, snap, text);
    NoneBlocked(patch, edits);
    var rs := RebasedPatch(patch, edits, 0, 0);
    SingleHunks(rs);
  }

  /** With nothing under review the base follows the user's edits. */
  lemma NothingUnderReview<X>(edits: Patch, base: seq<X>, text: seq<X>)
    requires Takes(edits, base, text) && Separated(edits)
    ensures Fits(Transported([], edits, 0), base, text, 0)
    ensures Apply(Transported([], edits, 0), base, text) == text
  {
    assert base[0..] == base;
    TransportTheorem([], edits, base, base, text);
    var newBase := Apply(Transported([], edits, 0), base, text);
    assert newBase[0..] == newBase && text[0..] == text;
  }
}
