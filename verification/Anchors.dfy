/** Anchors in a document, what transactions make of them, and when they bring deleted text back. */
module Anchors {
  import opened Options
  import opened Patches
  import opened Buffers
  import opened Documents

  /** How much is put in before gap `g`, not counting what is put in there. */
  function Inserted(changes: seq<Change>, g: nat): nat {
    if g == 0 then 0 else Inserted(changes, g - 1) + |InsAt(changes, g - 1)|
  }

  /** Where an anchor at gap `g` is after a transaction, if it is biased to the left. */
  function LeftGap(changes: seq<Change>, g: nat): nat {
    g + Inserted(changes, g)
  }

  /** ... and if it is biased to the right, and so belongs to the cell after the gap. */
  function RightGap(changes: seq<Change>, g: nat): nat {
    LeftGap(changes, g) + |InsAt(changes, g)|
  }

  /** A text remembered for the cells between two anchors, the first biased to the left and the second to the right. */
  datatype Memo = Memo(start: nat, end: nat, text: string)

  predicate MemosApart(memos: seq<Memo>, n: nat) {
    && (forall k | 0 <= k < |memos| :: memos[k].start <= memos[k].end <= n)
    && (forall k, m | 0 <= k < m < |memos| :: memos[k].end < memos[m].start)
  }

  function CarryMemos(changes: seq<Change>, memos: seq<Memo>): (r: seq<Memo>)
    ensures |r| == |memos|
  {
    if memos == [] then []
    else [Memo(LeftGap(changes, memos[0].start), RightGap(changes, memos[0].end), memos[0].text)] + CarryMemos(changes, memos[1..])
  }

  /** The edits that put the remembered texts where their anchors are. */
  function Resolve(doc: Document, v: nat, memos: seq<Memo>): (edits: Splices)
    requires MemosApart(memos, |doc|)
    ensures |edits| == |memos|
  {
    if memos == [] then []
    else
      MemosTail(memos, |doc|);
      [Splice(Span(Offset(doc, v, memos[0].start), Offset(doc, v, memos[0].end)), memos[0].text)] + Resolve(doc, v, memos[1..])
  }

  lemma MemosTail(memos: seq<Memo>, n: nat)
    requires memos != [] && MemosApart(memos, n)
    ensures MemosApart(memos[1..], n) && memos[0].start <= memos[0].end <= n
    ensures |memos| > 1 ==> memos[0].end < memos[1].start && memos[1..][0] == memos[1]
  {
    assert forall k | 0 <= k < |memos[1..]| :: memos[1..][k] == memos[k + 1];
  }

  lemma {:induction false} ResolveInOrder(doc: Document, v: nat, memos: seq<Memo>, g: nat)
    requires MemosApart(memos, |doc|) && g <= |doc| && (memos != [] ==> g <= memos[0].start)
    ensures InOrder(Resolve(doc, v, memos), TextAt(doc, v), Offset(doc, v, g))
  {
    OffsetSplits(doc, v, g, |doc|);
    if memos != [] {
      MemosTail(memos, |doc|);
      OffsetSplits(doc, v, g, memos[0].start);
      OffsetSplits(doc, v, memos[0].start, memos[0].end);
      ResolveInOrder(doc, v, memos[1..], memos[0].end);
    }
  }

  // ----- anchors are carried along

  lemma {:induction false} InsertedAscends(changes: seq<Change>, g: nat, h: nat)
    requires g <= h
    ensures Inserted(changes, g) <= Inserted(changes, h)
    ensures g < h ==> Inserted(changes, g) + |InsAt(changes, g)| <= Inserted(changes, h)
  {
    if g < h {
      InsertedAscends(changes, g, h - 1);
    }
  }

  lemma {:induction false} WovenLength(doc: Document, changes: seq<Change>, v: nat, i: nat, j: nat)
    requires i <= j <= |doc|
    ensures |Woven(doc, changes, v, i, j)| == j - i + Inserted(changes, j) - Inserted(changes, i)
    decreases j
  {
    if i < j {
      WovenLength(doc, changes, v, i, j - 1);
    }
  }

  lemma RewrittenLength(doc: Document, changes: seq<Change>, v: nat)
    ensures |Rewritten(doc, changes, v)| == RightGap(changes, |doc|)
  {
    WovenLength(doc, changes, v, 0, |doc|);
  }

  /** Memos that are apart stay so: cells never go away. */
  lemma {:induction false} CarryKeepsApart(changes: seq<Change>, memos: seq<Memo>, n: nat)
    requires MemosApart(memos, n)
    ensures MemosApart(CarryMemos(changes, memos), RightGap(changes, n))
  {
    var r := CarryMemos(changes, memos);
    forall k | 0 <= k < |r| ensures r[k].start <= r[k].end <= RightGap(changes, n) {
      CarryAt(changes, memos, k);
      InsertedAscends(changes, memos[k].start, memos[k].end);
      InsertedAscends(changes, memos[k].end, n);
    }
    forall k, m | 0 <= k < m < |r| ensures r[k].end < r[m].start {
      CarryAt(changes, memos, k);
      CarryAt(changes, memos, m);
      InsertedAscends(changes, memos[k].end, memos[m].start);
    }
  }

  lemma {:induction false} CarryAt(changes: seq<Change>, memos: seq<Memo>, k: nat)
    requires k < |memos|
    ensures CarryMemos(changes, memos)[k]
         == Memo(LeftGap(changes, memos[k].start), RightGap(changes, memos[k].end), memos[k].text)
  {
    if k > 0 {
      CarryAt(changes, memos[1..], k - 1);
    }
  }

  // ----- what lies between carried anchors

  /** The cells from gap `i` on, without what is put in there. */
  function AfterGap(doc: Document, changes: seq<Change>, v: nat, i: nat): Document
    requires i <= |doc|
  {
    if i == |doc| then [] else [Documents.Left(doc[i], GoneAt(changes, i), v)] + RewrittenFrom(doc, changes, v, i + 1)
  }

  /** The same up to gap `j`, from the carried left anchor at `i` on, or from the carried right anchor on if `skip`. */
  function Between(doc: Document, changes: seq<Change>, v: nat, i: nat, skip: bool, j: nat): Document
    requires i <= j <= |doc| && (skip ==> i < j)
  {
    if skip then [Documents.Left(doc[i], GoneAt(changes, i), v)] + Woven(doc, changes, v, i + 1, j) else Woven(doc, changes, v, i, j)
  }

  function CarriedGap(changes: seq<Change>, i: nat, skip: bool): nat {
    if skip then RightGap(changes, i) else LeftGap(changes, i)
  }

  lemma SplitsAtAnchors(doc: Document, changes: seq<Change>, v: nat, i: nat)
    requires i <= |doc|
    ensures LeftGap(changes, i) <= RightGap(changes, i) <= |Rewritten(doc, changes, v)|
    ensures Rewritten(doc, changes, v)[..LeftGap(changes, i)] == Woven(doc, changes, v, 0, i)
    ensures Rewritten(doc, changes, v)[LeftGap(changes, i)..] == RewrittenFrom(doc, changes, v, i)
    ensures Rewritten(doc, changes, v)[..RightGap(changes, i)] == Woven(doc, changes, v, 0, i) + Block(InsAt(changes, i), v + 1)
    ensures Rewritten(doc, changes, v)[RightGap(changes, i)..] == AfterGap(doc, changes, v, i)
  {
    hide InsAt, GoneAt, Woven, Block, RewrittenFrom, AfterGap, Rewritten;
    var w, block := Woven(doc, changes, v, 0, i), Block(InsAt(changes, i), v + 1);
    WovenLength(doc, changes, v, 0, i);
    BlockLength(InsAt(changes, i), v + 1);
    RewrittenSplits(doc, changes, v, i);
    ThreeParts(w, block, AfterGap(doc, changes, v, i));
  }

  lemma ThreeParts<T>(a: seq<T>, b: seq<T>, c: seq<T>)
    ensures (a + (b + c))[..|a|] == a && (a + (b + c))[|a|..] == b + c
    ensures (a + (b + c))[..|a| + |b|] == a + b && (a + (b + c))[|a| + |b|..] == c
  {
  }

  lemma RewrittenSplits(doc: Document, changes: seq<Change>, v: nat, i: nat)
    requires i <= |doc|
    ensures Rewritten(doc, changes, v) == Woven(doc, changes, v, 0, i) + RewrittenFrom(doc, changes, v, i)
    ensures RewrittenFrom(doc, changes, v, i) == Block(InsAt(changes, i), v + 1) + AfterGap(doc, changes, v, i)
  {
    hide InsAt, GoneAt, Woven, Block, RewrittenFrom;
    FromIs(doc, changes, v, 0);
    FromIs(doc, changes, v, i);
    WovenConcat(doc, changes, v, 0, i, |doc|);
    ConcatAssociates(Woven(doc, changes, v, 0, i), Woven(doc, changes, v, i, |doc|), Block(InsAt(changes, |doc|), v + 1));
    if i == |doc| {
      RewrittenEnd(doc, changes, v);
      NothingAfter(Block(InsAt(changes, i), v + 1));
    } else {
      RewrittenStep(doc, changes, v, i);
    }
  }

  lemma FromIs(doc: Document, changes: seq<Change>, v: nat, i: nat)
    requires i <= |doc|
    ensures RewrittenFrom(doc, changes, v, i) == Woven(doc, changes, v, i, |doc|) + Block(InsAt(changes, |doc|), v + 1)
  {
  }

  lemma NothingAfter(a: Document)
    ensures a == a + []
  {
  }

  lemma BlockLength(text: string, v: nat)
    ensures |Block(text, v)| == |text|
  {
  }

  lemma BetweenAnchors(doc: Document, changes: seq<Change>, v: nat, i: nat, skip: bool, j: nat)
    requires i <= j <= |doc| && (skip ==> i < j)
    ensures CarriedGap(changes, i, skip) <= LeftGap(changes, j) <= |Rewritten(doc, changes, v)|
    ensures Rewritten(doc, changes, v)[CarriedGap(changes, i, skip)..LeftGap(changes, j)] == Between(doc, changes, v, i, skip, j)
  {
    hide InsAt, GoneAt, Woven, Block, RewrittenFrom;
    InsertedAscends(changes, i, j);
    SplitsAtAnchors(doc, changes, v, j);
    WovenLength(doc, changes, v, 0, i);
    WovenConcat(doc, changes, v, 0, i, j);
    BlockLength(InsAt(changes, i), v + 1);
    var before := Woven(doc, changes, v, 0, i);
    if skip {
      WovenConcat(doc, changes, v, i, i + 1, j);
      OneWoven(doc, changes, v, i);
      assert Woven(doc, changes, v, 0, j) == before + Block(InsAt(changes, i), v + 1) + Between(doc, changes, v, i, skip, j);
    } else {
      assert Woven(doc, changes, v, 0, j) == before + Between(doc, changes, v, i, skip, j);
    }
    assert Rewritten(doc, changes, v)[CarriedGap(changes, i, skip)..LeftGap(changes, j)]
        == Rewritten(doc, changes, v)[..LeftGap(changes, j)][CarriedGap(changes, i, skip)..];
  }

  /** `now` is `was` with `extra` characters put in, if anything. */
  predicate IsWithExtra(now: string, was: string, extra: int) {
    extra >= 0 && |now| == |was| + extra && (extra == 0 ==> now == was)
  }

  lemma ExtrasAdd(now: string, was: string, extra: int, m: string, now': string, was': string, extra': int)
    requires IsWithExtra(now, was, extra) && IsWithExtra(now', was', extra')
    ensures IsWithExtra(now + m + now', was + m + was', extra + extra')
  {
  }

  /** No cell of `i..j` that is shown is deleted. */
  predicate NoneGone(doc: Document, changes: seq<Change>, v: nat, i: nat, j: nat) {
    forall c | i <= c < j && c < |doc| && doc[c].ShownAt(v) :: !GoneAt(changes, c)
  }

  lemma LeftShows(c: Cell, gone: bool, v: nat)
    requires c.born <= v && (c.died.Some? ==> c.died.value <= v) && (c.ShownAt(v) ==> !gone)
    ensures TextAt([Documents.Left(c, gone, v)], v + 1) == TextAt([c], v)
  {
    OneCell(Documents.Left(c, gone, v), v + 1);
    OneCell(c, v);
  }

  /** Where nothing that is shown is deleted, the new version shows what the old one did, and what was put in. */
  lemma {:induction false} WovenShows(doc: Document, changes: seq<Change>, v: nat, i: nat, j: nat)
    requires i <= j <= |doc| && KnownBy(doc, v) && NoneGone(doc, changes, v, i, j)
    ensures IsWithExtra(TextAt(Woven(doc, changes, v, i, j), v + 1), TextAt(doc[i..j], v),
                        Inserted(changes, j) - Inserted(changes, i))
    decreases j
  {
    hide InsAt, GoneAt, TextAt, Block;
    if i < j {
      var ins, cell := InsAt(changes, j - 1), Documents.Left(doc[j - 1], GoneAt(changes, j - 1), v);
      WovenShows(doc, changes, v, i, j - 1);
      InsertedAscends(changes, i, j - 1);
      BlockText(ins, v + 1, v + 1);
      LeftShows(doc[j - 1], GoneAt(changes, j - 1), v);
      TextConcat(Woven(doc, changes, v, i, j - 1), Block(ins, v + 1), v + 1);
      TextConcat(Woven(doc, changes, v, i, j - 1) + Block(ins, v + 1), [cell], v + 1);
      assert doc[i..j] == doc[i..j - 1] + [doc[j - 1]];
      TextConcat(doc[i..j - 1], [doc[j - 1]], v);
    } else {
      assert doc[i..j] == [];
      NoCells(v);
      NoCells(v + 1);
    }
  }

  lemma BetweenShows(doc: Document, changes: seq<Change>, v: nat, i: nat, skip: bool, j: nat)
    requires i <= j <= |doc| && (skip ==> i < j) && KnownBy(doc, v) && NoneGone(doc, changes, v, i, j)
    ensures IsWithExtra(TextAt(Between(doc, changes, v, i, skip, j), v + 1), TextAt(doc[i..j], v),
                        Inserted(changes, j) - Inserted(changes, if skip then i + 1 else i))
  {
    hide InsAt, GoneAt, TextAt, Woven;
    if skip {
      InsertedAscends(changes, i + 1, j);
      WovenShows(doc, changes, v, i + 1, j);
      LeftShows(doc[i], GoneAt(changes, i), v);
      TextConcat([Documents.Left(doc[i], GoneAt(changes, i), v)], Woven(doc, changes, v, i + 1, j), v + 1);
      assert doc[i..j] == [doc[i]] + doc[i + 1..j];
      TextConcat([doc[i]], doc[i + 1..j], v);
    } else {
      InsertedAscends(changes, i, j);
      WovenShows(doc, changes, v, i, j);
    }
  }

  /** The same up to the end of the document. */
  lemma RestShows(doc: Document, changes: seq<Change>, v: nat, i: nat, skip: bool)
    requires i <= |doc| && KnownBy(doc, v) && NoneGone(doc, changes, v, i, |doc|)
    ensures CarriedGap(changes, i, skip) <= |Rewritten(doc, changes, v)|
    ensures IsWithExtra(TextAt(Rewritten(doc, changes, v)[CarriedGap(changes, i, skip)..], v + 1), TextAt(doc[i..], v),
                        Inserted(changes, |doc| + 1) - Inserted(changes, if skip then i + 1 else i))
  {
    hide InsAt, GoneAt, TextAt, Block, KnownBy, NoneGone, Woven, IsWithExtra, Rewritten, RewrittenFrom, Between, CarriedGap;
    var n, last := |doc|, Block(InsAt(changes, |doc|), v + 1);
    if skip && i == n {
      NothingRests(doc, changes, v);
      ExactText();
    } else {
      BlockText(InsAt(changes, n), v + 1, v + 1);
      assert doc[i..] == doc[i..n];
      BetweenShows(doc, changes, v, i, skip, n);
      TextConcat(Between(doc, changes, v, i, skip, n), last, v + 1);
      RestIsBetween(doc, changes, v, i, skip);
      ExtraAppended(TextAt(Between(doc, changes, v, i, skip, n), v + 1), TextAt(doc[i..n], v),
                    Inserted(changes, n) - Inserted(changes, if skip then i + 1 else i), InsAt(changes, n));
    }
  }

  lemma NothingRests(doc: Document, changes: seq<Change>, v: nat)
    ensures CarriedGap(changes, |doc|, true) == |Rewritten(doc, changes, v)|
    ensures TextAt(doc[|doc|..], v) == "" && TextAt(Rewritten(doc, changes, v)[CarriedGap(changes, |doc|, true)..], v + 1) == ""
  {
    RewrittenLength(doc, changes, v);
  }

  lemma CarriedGapIs(changes: seq<Change>, i: nat, skip: bool)
    ensures CarriedGap(changes, i, skip) == if skip then RightGap(changes, i) else LeftGap(changes, i)
  {
  }

  lemma ExactText()
    ensures IsWithExtra("", "", 0)
  {
  }

  lemma ExtraAppended(now: string, was: string, extra: int, last: string)
    requires IsWithExtra(now, was, extra)
    ensures IsWithExtra(now + last, was, extra + |last|)
  {
  }

  lemma RestIsBetween(doc: Document, changes: seq<Change>, v: nat, i: nat, skip: bool)
    requires i <= |doc| && (skip ==> i < |doc|)
    ensures CarriedGap(changes, i, skip) <= |Rewritten(doc, changes, v)|
    ensures Rewritten(doc, changes, v)[CarriedGap(changes, i, skip)..]
         == Between(doc, changes, v, i, skip, |doc|) + Block(InsAt(changes, |doc|), v + 1)
  {
    hide InsAt, GoneAt, Block, Woven, Inserted;
    SplitsAtAnchors(doc, changes, v, i);
  }

  // ----- bringing text back

  /** What memos of the text between the anchors themselves remember. */
  predicate Remembers(memos: seq<Memo>, doc: Document, v: nat) {
    forall k | 0 <= k < |memos| ::
      memos[k].start <= memos[k].end <= |doc| && memos[k].text == TextAt(doc[memos[k].start..memos[k].end], v)
  }

  /** Cells that are shown are only deleted between the anchors of a memo. */
  predicate GoneInside(doc: Document, changes: seq<Change>, v: nat, memos: seq<Memo>, i: nat) {
    forall c | i <= c < |doc| && doc[c].ShownAt(v) && GoneAt(changes, c) ::
      exists m :: 0 <= m < |memos| && memos[m].start <= c < memos[m].end
  }

  predicate Covers(memos: seq<Memo>, g: nat) {
    exists m | 0 <= m < |memos| :: memos[m].start <= g <= memos[m].end
  }

  /** How much is put in at gaps from `lo` on that no memo covers. */
  function Uncovered(changes: seq<Change>, memos: seq<Memo>, lo: nat, n: nat): int {
    if memos == [] then Inserted(changes, n + 1) - Inserted(changes, lo)
    else Inserted(changes, memos[0].start) - Inserted(changes, lo) + Uncovered(changes, memos[1..], memos[0].end + 1, n)
  }

  lemma InsideRest(doc: Document, changes: seq<Change>, v: nat, memos: seq<Memo>, i: nat)
    requires memos != [] && MemosApart(memos, |doc|) && GoneInside(doc, changes, v, memos, i) && i <= memos[0].start
    ensures NoneGone(doc, changes, v, i, memos[0].start)
    ensures GoneInside(doc, changes, v, memos[1..], memos[0].end)
  {
    MemosTail(memos, |doc|);
    forall c | i <= c < memos[0].start && doc[c].ShownAt(v) ensures !GoneAt(changes, c) {
      assert forall m | 0 < m < |memos| :: memos[0].end < memos[m].start;
      assert forall m | 0 <= m < |memos| :: !(memos[m].start <= c < memos[m].end);
    }
    forall c | memos[0].end <= c < |doc| && doc[c].ShownAt(v) && GoneAt(changes, c)
      ensures exists m :: 0 <= m < |memos[1..]| && memos[1..][m].start <= c < memos[1..][m].end
    {
      var m :| 0 <= m < |memos| && memos[m].start <= c < memos[m].end;
      assert memos[1..][m - 1] == memos[m];
    }
  }

  /** Putting `memos` back into `d` from gap `x` on gives the text `was`, with `extra` characters put in. */
  predicate PutsBack(d: Document, v: nat, x: nat, memos: seq<Memo>, was: string, extra: int) {
    && x <= |d| && MemosApart(memos, |d|)
    && InOrder(Resolve(d, v, memos), TextAt(d, v), Offset(d, v, x))
    && IsWithExtra(SpliceFrom(Resolve(d, v, memos), TextAt(d, v), Offset(d, v, x)), was, extra)
  }

  lemma PutsNothingBack(d: Document, v: nat, x: nat, was: string, extra: int)
    requires x <= |d| && IsWithExtra(TextAt(d[x..], v), was, extra)
    ensures PutsBack(d, v, x, [], was, extra)
  {
    hide TextAt, IsWithExtra;
    TextSlice(d, v, x, |d|);
    EdgeOffsets(d, v);
    assert d[x..|d|] == d[x..];
    var t := TextAt(d, v);
    NoSplicesFrom(t, Offset(d, v, x));
    assert t[Offset(d, v, x)..|t|] == t[Offset(d, v, x)..];
  }

  /** The first memo is put back, then the others. */
  lemma PutsOneBack(d: Document, v: nat, x: nat, memos: seq<Memo>, before: string, extra: int, after: string, extra': int)
    requires memos != [] && MemosApart(memos, |d|) && x <= memos[0].start
    requires memos[0].start <= |d| && IsWithExtra(TextAt(d[x..memos[0].start], v), before, extra)
    requires PutsBack(d, v, memos[0].end, memos[1..], after, extra')
    ensures PutsBack(d, v, x, memos, before + memos[0].text + after, extra + extra')
  {
    hide TextAt, IsWithExtra, Offset, InOrder, SpliceFrom;
    var m, t, rest := memos[0], TextAt(d, v), Resolve(d, v, memos[1..]);
    MemosTail(memos, |d|);
    TextSlice(d, v, x, m.start);
    TextSlice(d, v, m.start, m.end);
    SpliceCons(Splice(Span(Offset(d, v, m.start), Offset(d, v, m.end)), m.text), rest, t, Offset(d, v, x));
    ExtrasAdd(TextAt(d[x..m.start], v), before, extra, m.text, SpliceFrom(rest, t, Offset(d, v, m.end)), after, extra');
  }

  lemma SplitText(doc: Document, v: nat, i: nat, m: Memo)
    requires i <= m.start <= m.end <= |doc| && m.text == TextAt(doc[m.start..m.end], v)
    ensures TextAt(doc[i..], v) == TextAt(doc[i..m.start], v) + m.text + TextAt(doc[m.end..], v)
  {
    hide TextAt;
    assert doc[i..] == doc[i..m.start] + doc[m.start..m.end] + doc[m.end..];
    TextConcat(doc[i..m.start], doc[m.start..m.end], v);
    TextConcat(doc[i..m.start] + doc[m.start..m.end], doc[m.end..], v);
  }

  /** Putting the remembered texts back gives the text there was, and whatever was put in outside all memos. */
  lemma {:induction false} PuttingBackFrom(doc: Document, v: nat, changes: seq<Change>, memos: seq<Memo>, i: nat, skip: bool)
    requires KnownBy(doc, v) && MemosApart(memos, |doc|) && Remembers(memos, doc, v) && i <= |doc|
    requires memos != [] ==> (if skip then i + 1 else i) <= memos[0].start
    requires GoneInside(doc, changes, v, memos, i)
    ensures PutsBack(Rewritten(doc, changes, v), v + 1, CarriedGap(changes, i, skip), CarryMemos(changes, memos),
                     TextAt(doc[i..], v), Uncovered(changes, memos, if skip then i + 1 else i, |doc|))
    decreases |memos|
  {
    hide InsAt, GoneAt, TextAt, Rewritten, Inserted, PutsBack, IsWithExtra, KnownBy, GoneInside, LeftGap, RightGap, CarryMemos,
      CarriedGap, Uncovered, Remembers, MemosApart, Between;
    var d, x := Rewritten(doc, changes, v), CarriedGap(changes, i, skip);
    UncoveredCons(changes, memos, if skip then i + 1 else i, |doc|);
    CarryCons(changes, memos);
    if memos == [] {
      NoneGoneInside(doc, changes, v, i);
      RestShows(doc, changes, v, i, skip);
      PutsNothingBack(d, v + 1, x, TextAt(doc[i..], v), Uncovered(changes, memos, if skip then i + 1 else i, |doc|));
    } else {
      var m, rest, carried := memos[0], memos[1..], CarryMemos(changes, memos);
      MemosTail(memos, |doc|);
      InsideRest(doc, changes, v, memos, i);
      RemembersRest(memos, doc, v);
      PuttingBackFrom(doc, v, changes, rest, m.end, true);
      RewrittenLength(doc, changes, v);
      CarryKeepsApart(changes, memos, |doc|);
      BetweenAnchors(doc, changes, v, i, skip, m.start);
      BetweenShows(doc, changes, v, i, skip, m.start);
      SplitText(doc, v, i, m);
      CarriedGapIs(changes, m.end, true);
      PutsOneBack(d, v + 1, x, carried, TextAt(doc[i..m.start], v),
                  Inserted(changes, m.start) - Inserted(changes, if skip then i + 1 else i),
                  TextAt(doc[m.end..], v), Uncovered(changes, rest, m.end + 1, |doc|));
    }
  }

  lemma UncoveredCons(changes: seq<Change>, memos: seq<Memo>, lo: nat, n: nat)
    ensures Uncovered(changes, memos, lo, n)
         == if memos == [] then Inserted(changes, n + 1) - Inserted(changes, lo)
            else Inserted(changes, memos[0].start) - Inserted(changes, lo) + Uncovered(changes, memos[1..], memos[0].end + 1, n)
  {
  }

  lemma CarryCons(changes: seq<Change>, memos: seq<Memo>)
    ensures var r := CarryMemos(changes, memos);
      if memos == [] then r == []
      else
        && r[0] == Memo(LeftGap(changes, memos[0].start), RightGap(changes, memos[0].end), memos[0].text)
        && r[1..] == CarryMemos(changes, memos[1..])
  {
  }

  lemma RemembersRest(memos: seq<Memo>, doc: Document, v: nat)
    requires memos != [] && Remembers(memos, doc, v)
    ensures memos[0].start <= memos[0].end <= |doc| && memos[0].text == TextAt(doc[memos[0].start..memos[0].end], v)
    ensures Remembers(memos[1..], doc, v)
  {
    assert forall k | 0 <= k < |memos[1..]| :: memos[1..][k] == memos[k + 1];
  }

  lemma NoneGoneInside(doc: Document, changes: seq<Change>, v: nat, i: nat)
    requires GoneInside(doc, changes, v, [], i)
    ensures NoneGone(doc, changes, v, i, |doc|)
  {
  }

  lemma {:induction false} NothingInserted(changes: seq<Change>, lo: nat, hi: nat)
    requires lo <= hi
    ensures Inserted(changes, lo) <= Inserted(changes, hi)
    ensures Inserted(changes, lo) == Inserted(changes, hi) <==> forall g | lo <= g < hi :: InsAt(changes, g) == ""
    decreases hi
  {
    if lo < hi {
      NothingInserted(changes, lo, hi - 1);
      assert Inserted(changes, hi) == Inserted(changes, hi - 1) + |InsAt(changes, hi - 1)|;
    }
  }

  lemma {:induction false} AllCovered(changes: seq<Change>, memos: seq<Memo>, lo: nat, n: nat)
    requires MemosApart(memos, n) && lo <= n + 1 && (memos != [] ==> lo <= memos[0].start)
    ensures Uncovered(changes, memos, lo, n) >= 0
    ensures Uncovered(changes, memos, lo, n) == 0 <==> forall g | lo <= g <= n && InsAt(changes, g) != "" :: Covers(memos, g)
    decreases |memos|
  {
    hide InsAt, Inserted;
    if memos == [] {
      NothingInserted(changes, lo, n + 1);
    } else {
      var rest := memos[1..];
      MemosTail(memos, n);
      NothingInserted(changes, lo, memos[0].start);
      AllCovered(changes, rest, memos[0].end + 1, n);
      forall g: nat ensures Covers(memos, g) <==> memos[0].start <= g <= memos[0].end || Covers(rest, g) {
        CoversCons(memos, g);
      }
      forall g: nat | g < memos[0].start ensures !Covers(memos, g) {
        CoversFrom(memos, n, g);
      }
    }
  }

  lemma CoversCons(memos: seq<Memo>, g: nat)
    requires memos != []
    ensures Covers(memos, g) <==> memos[0].start <= g <= memos[0].end || Covers(memos[1..], g)
  {
    if Covers(memos, g) {
      var m :| 0 <= m < |memos| && memos[m].start <= g <= memos[m].end;
      assert m > 0 ==> memos[1..][m - 1] == memos[m];
    }
    if Covers(memos[1..], g) {
      var m :| 0 <= m < |memos[1..]| && memos[1..][m].start <= g <= memos[1..][m].end;
      assert memos[m + 1] == memos[1..][m];
    }
  }

  lemma CoversFrom(memos: seq<Memo>, n: nat, g: nat)
    requires memos != [] && MemosApart(memos, n) && g < memos[0].start
    ensures !Covers(memos, g)
  {
    assert forall m | 0 < m < |memos| :: memos[0].end < memos[m].start;
  }

  /** Every text put in goes between the anchors of a memo. */
  predicate AllInside(changes: seq<Change>, memos: seq<Memo>) {
    forall k | 0 <= k < |changes| && changes[k].text != "" :: Covers(memos, changes[k].at)
  }

  lemma {:induction false} InsAtIs(changes: seq<Change>, n: nat, g: nat)
    requires ChangesApart(changes, n)
    ensures InsAt(changes, g) != "" ==> exists k :: 0 <= k < |changes| && changes[k].at == g && changes[k].text == InsAt(changes, g)
    ensures forall k | 0 <= k < |changes| && changes[k].at == g :: InsAt(changes, g) == changes[k].text
  {
    if changes != [] {
      ApartRest(changes, n);
      InsAtIs(changes[1..], n, g);
      if changes[0].at == g {
        assert forall k | 0 < k < |changes| :: changes[k] == changes[1..][k - 1];
      } else {
        if InsAt(changes, g) != "" {
          var k :| 0 <= k < |changes[1..]| && changes[1..][k].at == g && changes[1..][k].text == InsAt(changes, g);
          assert changes[k + 1] == changes[1..][k];
        }
        forall k | 0 <= k < |changes| && changes[k].at == g ensures InsAt(changes, g) == changes[k].text {
          assert changes[k] == changes[1..][k - 1];
        }
      }
    }
  }

  /** A transaction that deletes only between the anchors of memos is undone by putting their texts back exactly if whatever
      text it put in went between the anchors of a memo. */
  lemma PuttingBackExact(doc: Document, v: nat, changes: seq<Change>, memos: seq<Memo>)
    requires KnownBy(doc, v) && ChangesApart(changes, |doc|)
    requires MemosApart(memos, |doc|) && Remembers(memos, doc, v) && GoneInside(doc, changes, v, memos, 0)
    ensures var d := Rewritten(doc, changes, v);
      && MemosApart(CarryMemos(changes, memos), |d|)
      && var undo := Resolve(d, v + 1, CarryMemos(changes, memos));
         && InOrder(undo, TextAt(d, v + 1), 0)
         && (SpliceFrom(undo, TextAt(d, v + 1), 0) == TextAt(doc, v) <==> AllInside(changes, memos))
  {
    hide InsAt, GoneAt, TextAt, Rewritten, Resolve;
    PuttingBackFrom(doc, v, changes, memos, 0, false);
    EdgeOffsets(Rewritten(doc, changes, v), v + 1);
    AllCovered(changes, memos, 0, |doc|);
    assert doc[0..] == doc;
    forall g: nat
      ensures InsAt(changes, g) != "" ==> exists k :: 0 <= k < |changes| && changes[k].at == g && changes[k].text == InsAt(changes, g)
      ensures forall k | 0 <= k < |changes| && changes[k].at == g :: InsAt(changes, g) == changes[k].text
    {
      InsAtIs(changes, |doc|, g);
    }
    forall k | 0 <= k < |changes| ensures changes[k].at <= |doc| && InsAt(changes, changes[k].at) == changes[k].text {
    }
  }

  /** With nothing done in between, the remembered texts are what is there. */
  lemma {:induction false} PuttingBackNothing(doc: Document, v: nat, memos: seq<Memo>, g: nat)
    requires MemosApart(memos, |doc|) && Remembers(memos, doc, v) && g <= |doc| && (memos != [] ==> g <= memos[0].start)
    ensures InOrder(Resolve(doc, v, memos), TextAt(doc, v), Offset(doc, v, g))
    ensures SpliceFrom(Resolve(doc, v, memos), TextAt(doc, v), Offset(doc, v, g)) == TextAt(doc[g..], v)
    decreases |memos|
  {
    hide TextAt, Offset, InOrder, SpliceFrom;
    var t := TextAt(doc, v);
    if memos == [] {
      TextSlice(doc, v, g, |doc|);
      EdgeOffsets(doc, v);
      NoSplicesFrom(t, Offset(doc, v, g));
      assert doc[g..|doc|] == doc[g..];
      assert t[Offset(doc, v, g)..|t|] == t[Offset(doc, v, g)..];
    } else {
      var m := memos[0];
      MemosTail(memos, |doc|);
      RemembersRest(memos, doc, v);
      PuttingBackNothing(doc, v, memos[1..], m.end);
      TextSlice(doc, v, g, m.start);
      TextSlice(doc, v, m.start, m.end);
      SpliceCons(Splice(Span(Offset(doc, v, m.start), Offset(doc, v, m.end)), m.text), Resolve(doc, v, memos[1..]), t, Offset(doc, v, g));
      SplitText(doc, v, g, m);
    }
  }

  /** The characters around each memo are shown. */
  predicate AnchorsShown(memos: seq<Memo>, doc: Document, v: nat) {
    forall k | 0 <= k < |memos| ::
      && memos[k].start <= memos[k].end <= |doc|
      && (memos[k].start == 0 || doc[memos[k].start - 1].ShownAt(v))
      && (memos[k].end == |doc| || doc[memos[k].end].ShownAt(v))
  }

  /** What is put in at the start of a memo whose anchors are shown goes between them. */
  lemma ShownAnchorsCover(doc: Document, v: nat, memos: seq<Memo>, m: nat, e: Splice, front: bool)
    requires AnchorsShown(memos, doc, v) && m < |memos| && Within(e.range, TextAt(doc, v))
    requires memos[m].start <= |doc| && e.range.start == Offset(doc, v, memos[m].start)
    ensures Covers(memos, ChangeOf(doc, v, e, front).at)
  {
    hide TextAt, Offset;
    ChangeFits(doc, v, e, front);
    ShownAnchors(doc, v, memos[m].start);
    ShownAnchors(doc, v, memos[m].end);
    OffsetSplits(doc, v, memos[m].start, memos[m].end);
    AnchorsAscend(doc, v, Offset(doc, v, memos[m].start), Offset(doc, v, memos[m].end));
  }

  // ----- anchors as positions

  /** How much of the new version is shown from gap `i` of the old one to gap `j`. */
  function ShownIn(doc: Document, changes: seq<Change>, v: nat, i: nat, j: nat): nat
    requires i <= j <= |doc|
  {
    |TextAt(Woven(doc, changes, v, i, j), v + 1)|
  }

  lemma ShownConcat(doc: Document, changes: seq<Change>, v: nat, i: nat, k: nat, j: nat)
    requires i <= k <= j <= |doc|
    ensures ShownIn(doc, changes, v, i, j) == ShownIn(doc, changes, v, i, k) + ShownIn(doc, changes, v, k, j)
  {
    hide TextAt, Woven;
    WovenConcat(doc, changes, v, i, k, j);
    TextConcat(Woven(doc, changes, v, i, k), Woven(doc, changes, v, k, j), v + 1);
  }

  lemma ShownUntouched(doc: Document, changes: seq<Change>, v: nat, i: nat, j: nat)
    requires i <= j <= |doc| && KnownBy(doc, v)
    requires forall g | i <= g < j :: InsAt(changes, g) == "" && !GoneAt(changes, g)
    ensures ShownIn(doc, changes, v, i, j) == Offset(doc, v, j) - Offset(doc, v, i)
  {
    hide TextAt, Woven, InsAt, GoneAt;
    WovenUntouched(doc, changes, v, i, j);
    OffsetSplits(doc, v, i, j);
  }

  /** From before the first change to behind it. */
  lemma ShownAcross(doc: Document, changes: seq<Change>, v: nat, i: nat, j: nat)
    requires changes != [] && ChangesApart(changes, |doc|) && KnownBy(doc, v)
    requires i <= changes[0].at < j && changes[0].upto <= j <= |doc|
    ensures ShownIn(doc, changes, v, i, j)
         == Offset(doc, v, changes[0].at) - Offset(doc, v, i) + |changes[0].text| + ShownIn(doc, changes[1..], v, changes[0].upto, j)
  {
    hide TextAt, Woven, InsAt, GoneAt, Block, ChangesApart, ShownIn;
    ApartRest(changes, |doc|);
    var c, n, rest := changes[0], |doc|, changes[1..];
    forall g: nat ensures
      && (g < c.at ==> InsAt(changes, g) == "" && !GoneAt(changes, g))
      && (g == c.at ==> InsAt(changes, g) == c.text)
      && (c.at < g <= c.upto ==> InsAt(changes, g) == "")
      && (c.at <= g < c.upto ==> GoneAt(changes, g))
      && (g > c.at ==> InsAt(changes, g) == InsAt(rest, g))
      && (g >= c.upto ==> GoneAt(changes, g) == GoneAt(rest, g))
      && (g <= c.upto ==> InsAt(rest, g) == "")
    {
      FirstChange(changes, n, g);
    }
    ShownConcat(doc, changes, v, i, c.at, j);
    ShownUntouched(doc, changes, v, i, c.at);
    if c.at < c.upto {
      ShownConcat(doc, changes, v, c.at, c.upto, j);
      ShownGone(doc, changes, v, c.at, c.upto);
      ShownSame(doc, changes, rest, v, c.upto, j);
    } else {
      ShownConcat(doc, changes, v, c.at, c.at + 1, j);
      ShownConcat(doc, rest, v, c.at, c.at + 1, j);
      ShownOne(doc, changes, v, c.at);
      ShownOne(doc, rest, v, c.at);
      ShownSame(doc, changes, rest, v, c.at + 1, j);
    }
  }

  lemma ShownGone(doc: Document, changes: seq<Change>, v: nat, i: nat, j: nat)
    requires i < j <= |doc| && KnownBy(doc, v)
    requires forall g | i <= g < j :: GoneAt(changes, g) && (g > i ==> InsAt(changes, g) == "")
    ensures ShownIn(doc, changes, v, i, j) == |InsAt(changes, i)|
  {
    WovenGone(doc, changes, v, i, j);
  }

  lemma ShownSame(doc: Document, changes: seq<Change>, changes': seq<Change>, v: nat, i: nat, j: nat)
    requires i <= j <= |doc|
    requires forall g | i <= g < j :: InsAt(changes, g) == InsAt(changes', g) && GoneAt(changes, g) == GoneAt(changes', g)
    ensures ShownIn(doc, changes, v, i, j) == ShownIn(doc, changes', v, i, j)
  {
    WovenSame(doc, changes, changes', v, i, j);
  }

  lemma ShownOne(doc: Document, changes: seq<Change>, v: nat, i: nat)
    requires i < |doc|
    ensures ShownIn(doc, changes, v, i, i + 1)
         == |InsAt(changes, i)| + if Documents.Left(doc[i], GoneAt(changes, i), v).ShownAt(v + 1) then 1 else 0
  {
    hide InsAt, GoneAt, Block, Woven, TextAt;
    var cell := Documents.Left(doc[i], GoneAt(changes, i), v);
    OneWoven(doc, changes, v, i);
    TextConcat(Block(InsAt(changes, i), v + 1), [cell], v + 1);
    BlockText(InsAt(changes, i), v + 1, v + 1);
    OneCell(cell, v + 1);
  }

  /** The next change lies behind the first one, and where the next splice starts or behind. */
  lemma RestOfChanges(doc: Document, v: nat, made: Splices, front: set<nat>, k: nat)
    requires made != [] && Apart(made) && AllIn(made, TextAt(doc, v))
    ensures var changes, e := ChangesOf(doc, v, made, front, k), made[0];
      && ChangesApart(changes, |doc|) && changes[0] == ChangeOf(doc, v, e, k in front)
      && changes[1..] == ChangesOf(doc, v, made[1..], front, k + 1)
      && Apart(made[1..]) && AllIn(made[1..], TextAt(doc, v))
      && (made[1..] != [] ==>
            var next := ChangeOf(doc, v, made[1], k + 1 in front).at;
            changes[0].upto <= next && BeforeChar(doc, v, e.range.end) < next && changes[1..][0].at == next)
  {
    hide TextAt, ChangeOf;
    var changes := ChangesOf(doc, v, made, front, k);
    ChangesAreApart(doc, v, made, front, k);
    ChangesAt(doc, v, made, front, k, 0);
    ApartTail(made);
    assert forall m | 0 <= m < |made[1..]| :: made[1..][m] == made[m + 1];
    if made[1..] != [] {
      ChangesAt(doc, v, made, front, k, 1);
      ChangeFits(doc, v, made[1], k + 1 in front);
      AnchorsAscend(doc, v, made[0].range.end, made[1].range.start);
      assert changes[1] == changes[1..][0];
    }
  }

  /** What is shown up to a left anchor, which belongs to the character before position `p`. */
  lemma {:induction false} LeftIsCarried(doc: Document, v: nat, made: Splices, front: set<nat>, k: nat, i: nat, p: nat)
    requires KnownBy(doc, v) && i <= |doc| && Apart(made) && AllIn(made, TextAt(doc, v))
    requires InOrder(made, TextAt(doc, v), Offset(doc, v, i)) && (made != [] ==> i <= ChangeOf(doc, v, made[0], k in front).at)
    requires p <= |TextAt(doc, v)| && i <= AfterChar(doc, v, p) <= |doc|
    ensures ShownIn(doc, ChangesOf(doc, v, made, front, k), v, i, AfterChar(doc, v, p)) == Carry(made, p, true) - Offset(doc, v, i)
    decreases |made|
  {
    hide TextAt, Woven, InsAt, GoneAt, ChangesApart, ShownIn, AfterChar, BeforeChar, KnownBy, Apart, AllIn, ChangesOf, Offset;
    var g, changes := AfterChar(doc, v, p), ChangesOf(doc, v, made, front, k);
    AnchorsMeet(doc, v, p);
    if made == [] {
      NoChanges(doc, v, front, k);
      ShownUntouched(doc, changes, v, i, g);
    } else {
      var e, rest, c := made[0], made[1..], changes[0];
      FirstSplice(made, TextAt(doc, v), Offset(doc, v, i));
      RestOfChanges(doc, v, made, front, k);
      ChangeFits(doc, v, e, k in front);
      if p <= e.range.start {
        AnchorsAscend(doc, v, p, e.range.start);
        NothingUpTo(doc, changes, c.at);
        ShownUntouched(doc, changes, v, i, g);
      } else {
        AnchorsAscend(doc, v, e.range.start, p);
        if p <= e.range.end {
          AnchorsAscend(doc, v, p, e.range.end);
          UpTo(doc, v, e, k in front);
          ShownInside(doc, changes, v, i, g);
        } else {
          AnchorsAscend(doc, v, e.range.end, p);
          UpTo(doc, v, e, k in front);
          ShownAcross(doc, changes, v, i, g);
          LeftIsCarried(doc, v, rest, front, k + 1, c.upto, p);
        }
      }
    }
  }

  lemma NoChanges(doc: Document, v: nat, front: set<nat>, k: nat)
    ensures ChangesOf(doc, v, [], front, k) == []
    ensures forall g: nat :: InsAt([], g) == "" && !GoneAt([], g)
  {
  }

  lemma NothingUpTo(doc: Document, changes: seq<Change>, j: nat)
    requires changes != [] && ChangesApart(changes, |doc|) && j <= changes[0].at
    ensures forall g: nat | g < j :: InsAt(changes, g) == "" && !GoneAt(changes, g)
  {
    forall g: nat | g < j ensures InsAt(changes, g) == "" && !GoneAt(changes, g) {
      FirstChange(changes, |doc|, g);
    }
  }

  lemma UpTo(doc: Document, v: nat, e: Splice, front: bool)
    requires Within(e.range, TextAt(doc, v))
    ensures var c := ChangeOf(doc, v, e, front);
      AfterChar(doc, v, e.range.end) <= c.upto <= BeforeChar(doc, v, e.range.end)
  {
    ChangeFits(doc, v, e, front);
    AnchorsMeet(doc, v, e.range.end);
    AnchorsAscend(doc, v, e.range.start, e.range.end);
  }

  /** From before the first change to some deleted cell of it. */
  lemma ShownInside(doc: Document, changes: seq<Change>, v: nat, i: nat, j: nat)
    requires changes != [] && ChangesApart(changes, |doc|) && KnownBy(doc, v)
    requires i <= changes[0].at < j <= changes[0].upto <= |doc|
    ensures ShownIn(doc, changes, v, i, j) == Offset(doc, v, changes[0].at) - Offset(doc, v, i) + |changes[0].text|
  {
    hide TextAt, Woven, InsAt, GoneAt, ChangesApart, ShownIn;
    var c := changes[0];
    forall g: nat ensures
      && (g < c.at ==> InsAt(changes, g) == "" && !GoneAt(changes, g))
      && (g == c.at ==> InsAt(changes, g) == c.text)
      && (c.at < g <= c.upto ==> InsAt(changes, g) == "")
      && (c.at <= g < c.upto ==> GoneAt(changes, g))
    {
      FirstChange(changes, |doc|, g);
    }
    ShownConcat(doc, changes, v, i, c.at, j);
    ShownUntouched(doc, changes, v, i, c.at);
    ShownGone(doc, changes, v, c.at, j);
  }

  /** What is shown up to a right anchor, which belongs to the character at position `p`. */
  lemma {:induction false} RightIsCarried(doc: Document, v: nat, made: Splices, front: set<nat>, k: nat, i: nat, p: nat)
    requires KnownBy(doc, v) && i <= |doc| && Apart(made) && AllIn(made, TextAt(doc, v))
    requires InOrder(made, TextAt(doc, v), Offset(doc, v, i)) && (made != [] ==> i <= ChangeOf(doc, v, made[0], k in front).at)
    requires p <= |TextAt(doc, v)| && i <= BeforeChar(doc, v, p) <= |doc|
    ensures var g, changes := BeforeChar(doc, v, p), ChangesOf(doc, v, made, front, k);
      ShownIn(doc, changes, v, i, g) + |InsAt(changes, g)| == Carry(made, p, false) - Offset(doc, v, i)
    decreases |made|
  {
    hide TextAt, Woven, InsAt, GoneAt, ChangesApart, ShownIn, AfterChar, BeforeChar, KnownBy, Apart, AllIn, ChangesOf, Offset;
    var g, changes := BeforeChar(doc, v, p), ChangesOf(doc, v, made, front, k);
    AnchorsMeet(doc, v, p);
    if made == [] {
      NoChanges(doc, v, front, k);
      ShownUntouched(doc, changes, v, i, g);
    } else {
      var e, rest, c := made[0], made[1..], changes[0];
      FirstSplice(made, TextAt(doc, v), Offset(doc, v, i));
      RestOfChanges(doc, v, made, front, k);
      ChangeFits(doc, v, e, k in front);
      UpTo(doc, v, e, k in front);
      FirstChange(changes, |doc|, g);
      if p < e.range.start {
        AnchorsAscend(doc, v, p, e.range.start);
        NothingUpTo(doc, changes, c.at);
        ShownUntouched(doc, changes, v, i, g);
      } else {
        AnchorsAscend(doc, v, e.range.start, p);
        if p <= e.range.end {
          AnchorsAscend(doc, v, p, e.range.end);
          RightInside(doc, v, changes, i, g, p, e.range.end);
        } else {
          AnchorsAscend(doc, v, e.range.end, p);
          ShownAcross(doc, changes, v, i, g);
          RightIsCarried(doc, v, rest, front, k + 1, c.upto, p);
        }
      }
    }
  }

  /** ... if that is one the first change deletes, or the one behind it. */
  lemma RightInside(doc: Document, v: nat, changes: seq<Change>, i: nat, g: nat, p: nat, q: nat)
    requires changes != [] && ChangesApart(changes, |doc|) && KnownBy(doc, v)
    requires i <= changes[0].at <= g <= |doc| && changes[0].upto <= |doc|
    requires p <= q && Offset(doc, v, g) == p && Offset(doc, v, changes[0].upto) == q
    requires changes[1..] != [] ==> g < changes[1..][0].at
    ensures ShownIn(doc, changes, v, i, g) + |InsAt(changes, g)|
         == Offset(doc, v, changes[0].at) - Offset(doc, v, i) + |changes[0].text|
  {
    hide TextAt, Woven, InsAt, GoneAt, ChangesApart, ShownIn, Offset;
    var c, rest := changes[0], changes[1..];
    ApartRest(changes, |doc|);
    FirstChange(changes, |doc|, g);
    if g == c.at {
      NothingUpTo(doc, changes, c.at);
      ShownUntouched(doc, changes, v, i, g);
    } else if g <= c.upto {
      ShownInside(doc, changes, v, i, g);
    } else {
      OffsetSplits(doc, v, c.upto, g);
      ShownAcross(doc, changes, v, i, g);
      if rest == [] {
        NoChanges(doc, v, {}, 0);
      } else {
        NothingUpTo(doc, rest, g);
        FirstChange(rest, |doc|, g);
      }
      ShownUntouched(doc, rest, v, c.upto, g);
    }
  }

  /** Anchors at shown characters move as positions do: carrying the anchor of a position is carrying the position. */
  lemma AnchorsFollowPositions(doc: Document, v: nat, made: Splices, front: set<nat>, p: nat)
    requires KnownBy(doc, v) && Apart(made) && InOrder(made, TextAt(doc, v), 0) && p <= |TextAt(doc, v)|
    ensures var changes := ChangesOf(doc, v, made, front, 0);
      var d, l, r := Rewritten(doc, changes, v), LeftGap(changes, AfterChar(doc, v, p)), RightGap(changes, BeforeChar(doc, v, p));
      && l <= |d| && Offset(d, v + 1, l) == Carry(made, p, true)
      && r <= |d| && Offset(d, v + 1, r) == Carry(made, p, false)
  {
    hide TextAt, Woven, InsAt, GoneAt, ChangesApart, AfterChar, BeforeChar, KnownBy, Apart, AllIn, ChangesOf, Block, Rewritten, LeftGap,
      RightGap, Carry, InOrder, RewrittenFrom, AfterGap;
    var changes := ChangesOf(doc, v, made, front, 0);
    InOrderWithin(made, TextAt(doc, v), 0);
    AnchorsMeet(doc, v, p);
    EdgeOffsets(doc, v);
    LeftIsCarried(doc, v, made, front, 0, 0, p);
    RightIsCarried(doc, v, made, front, 0, 0, p);
    SplitsAtAnchors(doc, changes, v, AfterChar(doc, v, p));
    SplitsAtAnchors(doc, changes, v, BeforeChar(doc, v, p));
    var ins := InsAt(changes, BeforeChar(doc, v, p));
    BlockText(ins, v + 1, v + 1);
    TextConcat(Woven(doc, changes, v, 0, BeforeChar(doc, v, p)), Block(ins, v + 1), v + 1);
  }

  lemma LeftOfGap(doc: Document, changes: seq<Change>, v: nat, g: nat)
    requires 0 < g <= |doc|
    ensures var l := LeftGap(changes, g);
      0 < l <= |Rewritten(doc, changes, v)|
      && Rewritten(doc, changes, v)[l - 1] == Documents.Left(doc[g - 1], GoneAt(changes, g - 1), v)
  {
    hide InsAt, GoneAt, Block, Rewritten, LeftGap, RightGap;
    SplitsAtAnchors(doc, changes, v, g);
    var d, w := Rewritten(doc, changes, v), Woven(doc, changes, v, 0, g);
    assert |d[..LeftGap(changes, g)]| == LeftGap(changes, g) && |w| > 0 && w[|w| - 1] == d[|w| - 1];
  }

  lemma RightOfGap(doc: Document, changes: seq<Change>, v: nat, g: nat)
    requires g < |doc|
    ensures var r := RightGap(changes, g);
      r < |Rewritten(doc, changes, v)| && Rewritten(doc, changes, v)[r] == Documents.Left(doc[g], GoneAt(changes, g), v)
  {
    hide InsAt, GoneAt, Block, Rewritten, LeftGap, RightGap;
    SplitsAtAnchors(doc, changes, v, g);
    assert Rewritten(doc, changes, v)[RightGap(changes, g)..][0] == AfterGap(doc, changes, v, g)[0];
  }

  /** ... and it is again the anchor of its position, if the character it belongs to is not replaced. */
  lemma AnchorsStay(doc: Document, v: nat, made: Splices, front: set<nat>, p: nat)
    requires KnownBy(doc, v) && Apart(made) && InOrder(made, TextAt(doc, v), 0) && p <= |TextAt(doc, v)|
    ensures var changes := ChangesOf(doc, v, made, front, 0);
      var d := Rewritten(doc, changes, v);
      && (p == 0 || !Replaces(made, p - 1) ==> LeftGap(changes, AfterChar(doc, v, p)) == AfterChar(d, v + 1, Carry(made, p, true)))
      && (p == |TextAt(doc, v)| || !Replaces(made, p) ==>
            RightGap(changes, BeforeChar(doc, v, p)) == BeforeChar(d, v + 1, Carry(made, p, false)))
  {
    hide TextAt, Woven, InsAt, GoneAt, ChangesApart, AfterChar, BeforeChar, Apart, AllIn, ChangesOf, Block, Rewritten,
      Carry, InOrder, Replaces, Offset;
    var changes := ChangesOf(doc, v, made, front, 0);
    var d, l, r := Rewritten(doc, changes, v), AfterChar(doc, v, p), BeforeChar(doc, v, p);
    InOrderWithin(made, TextAt(doc, v), 0);
    AnchorsMeet(doc, v, p);
    AnchorsAreShown(doc, v, p);
    AnchorsFollowPositions(doc, v, made, front, p);
    ShownAnchors(d, v + 1, LeftGap(changes, l));
    ShownAnchors(d, v + 1, RightGap(changes, r));
    if l > 0 {
      LeftOfGap(doc, changes, v, l);
      StepOffset(doc, v, l - 1);
      if GoneAt(changes, l - 1) {
        GoneIsReplaced(doc, v, made, front, 0, l - 1);
      }
    } else {
      assert LeftGap(changes, 0) == 0;
    }
    if r < |doc| {
      RightOfGap(doc, changes, v, r);
      StepOffset(doc, v, r);
      if GoneAt(changes, r) {
        GoneIsReplaced(doc, v, made, front, 0, r);
      }
    } else {
      RewrittenLength(doc, changes, v);
    }
  }
}
