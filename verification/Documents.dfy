/** The text of a buffer as it is kept. Deleted characters stay where they are, no longer shown, and anchors are attached to
    characters, whether these are shown or not. */
module Documents {
  import opened Options
  import opened Patches
  import opened Buffers

  /** A character, the version of the buffer that inserted it, and the one that deleted it. */
  datatype Cell = Cell(letter: char, born: nat, died: Option<nat>) {
    predicate ShownAt(v: nat) { born <= v && (died.Some? ==> v < died.value) }
  }

  type Document = seq<Cell>

  /** Nothing in the document happened after version `v`. */
  predicate KnownBy(doc: Document, v: nat) {
    forall k | 0 <= k < |doc| :: doc[k].born <= v && (doc[k].died.Some? ==> doc[k].died.value <= v)
  }

  /** The text that version `v` shows. */
  function TextAt(doc: Document, v: nat): string {
    if doc == [] then "" else (if doc[0].ShownAt(v) then [doc[0].letter] else "") + TextAt(doc[1..], v)
  }

  /** How many characters are shown before a gap between cells. */
  function Offset(doc: Document, v: nat, gap: nat): nat
    requires gap <= |doc|
  {
    |TextAt(doc[..gap], v)|
  }

  lemma NoCells(v: nat)
    ensures TextAt([], v) == ""
  {
  }

  lemma TextCons(c: Cell, doc: Document, v: nat)
    ensures TextAt([c] + doc, v) == (if c.ShownAt(v) then [c.letter] else "") + TextAt(doc, v)
  {
    assert ([c] + doc)[1..] == doc;
  }

  lemma {:induction false} TextConcat(a: Document, b: Document, v: nat)
    ensures TextAt(a + b, v) == TextAt(a, v) + TextAt(b, v)
  {
    hide TextAt;
    NoCells(v);
    if a == [] {
      assert a + b == b;
    } else {
      assert a == [a[0]] + a[1..] && a + b == [a[0]] + (a[1..] + b);
      TextConcat(a[1..], b, v);
      TextCons(a[0], a[1..], v);
      TextCons(a[0], a[1..] + b, v);
    }
  }

  lemma OffsetSplits(doc: Document, v: nat, i: nat, j: nat)
    requires i <= j <= |doc|
    ensures Offset(doc, v, j) == Offset(doc, v, i) + |TextAt(doc[i..j], v)|
    ensures Offset(doc, v, j) <= |TextAt(doc, v)|
  {
    hide TextAt;
    assert doc[..j] == doc[..i] + doc[i..j] && doc == doc[..j] + doc[j..];
    TextConcat(doc[..i], doc[i..j], v);
    TextConcat(doc[..j], doc[j..], v);
  }

  lemma TextSlice(doc: Document, v: nat, i: nat, j: nat)
    requires i <= j <= |doc|
    ensures Offset(doc, v, i) <= Offset(doc, v, j) <= |TextAt(doc, v)|
    ensures TextAt(doc[i..j], v) == TextAt(doc, v)[Offset(doc, v, i)..Offset(doc, v, j)]
  {
    hide TextAt;
    OffsetSplits(doc, v, i, j);
    assert doc == doc[..j] + doc[j..] && doc[..j] == doc[..i] + doc[i..j];
    TextConcat(doc[..i], doc[i..j], v);
    TextConcat(doc[..j], doc[j..], v);
    Middle(TextAt(doc[..i], v), TextAt(doc[i..j], v), TextAt(doc[j..], v));
  }

  lemma Middle(a: string, b: string, c: string)
    ensures (a + b + c)[|a|..|a| + |b|] == b
  {
  }

  lemma EdgeOffsets(doc: Document, v: nat)
    ensures Offset(doc, v, 0) == 0 && Offset(doc, v, |doc|) == |TextAt(doc, v)|
  {
    assert doc[..|doc|] == doc;
  }

  lemma StepOffset(doc: Document, v: nat, c: nat)
    requires c < |doc|
    ensures Offset(doc, v, c + 1) == Offset(doc, v, c) + if doc[c].ShownAt(v) then 1 else 0
  {
    OffsetSplits(doc, v, c, c + 1);
    assert doc[c..c + 1] == [doc[c]] && [doc[c]][1..] == [];
  }

  // ----- where anchors are attached

  /** The gap behind the character before position `p`: where an anchor biased to the left is. */
  function AfterChar(doc: Document, v: nat, p: int): nat {
    if p <= 0 || doc == [] then 0
    else 1 + AfterChar(doc[1..], v, if doc[0].ShownAt(v) then p - 1 else p)
  }

  /** The gap before the character at position `p`: where an anchor biased to the right is. */
  function BeforeChar(doc: Document, v: nat, p: int): nat {
    if doc == [] || (doc[0].ShownAt(v) && p <= 0) then 0
    else 1 + BeforeChar(doc[1..], v, if doc[0].ShownAt(v) then p - 1 else p)
  }

  lemma OffsetCons(doc: Document, v: nat, g: nat)
    requires doc != [] && 0 < g <= |doc|
    ensures Offset(doc, v, g) == (if doc[0].ShownAt(v) then 1 else 0) + Offset(doc[1..], v, g - 1)
  {
    assert doc[..g][1..] == doc[1..][..g - 1];
  }

  /** The anchors at a position lie around it, the left one first, with no shown character between. */
  lemma {:induction false} AnchorsMeet(doc: Document, v: nat, p: nat)
    requires p <= |TextAt(doc, v)|
    ensures AfterChar(doc, v, p) <= BeforeChar(doc, v, p) <= |doc|
    ensures Offset(doc, v, AfterChar(doc, v, p)) == p == Offset(doc, v, BeforeChar(doc, v, p))
    ensures p == 0 ==> AfterChar(doc, v, p) == 0
    ensures p == |TextAt(doc, v)| ==> BeforeChar(doc, v, p) == |doc|
  {
    if doc != [] {
      if !doc[0].ShownAt(v) {
        AnchorsMeet(doc[1..], v, p);
      } else if p > 0 {
        AnchorsMeet(doc[1..], v, p - 1);
      }
      if AfterChar(doc, v, p) > 0 {
        OffsetCons(doc, v, AfterChar(doc, v, p));
      }
      if BeforeChar(doc, v, p) > 0 {
        OffsetCons(doc, v, BeforeChar(doc, v, p));
      }
    }
  }

  lemma {:induction false} AnchorsAscend(doc: Document, v: nat, p: nat, q: nat)
    requires p <= q <= |TextAt(doc, v)|
    ensures AfterChar(doc, v, p) <= AfterChar(doc, v, q) && BeforeChar(doc, v, p) <= BeforeChar(doc, v, q)
    ensures p < q ==> BeforeChar(doc, v, p) < AfterChar(doc, v, q)
  {
    if doc != [] {
      if !doc[0].ShownAt(v) {
        AnchorsAscend(doc[1..], v, p, q);
      } else if p > 0 {
        AnchorsAscend(doc[1..], v, p - 1, q - 1);
      }
    }
  }

  /** An anchor whose character is shown is the one of its offset. */
  lemma {:induction false} ShownAnchors(doc: Document, v: nat, g: nat)
    requires g <= |doc|
    ensures g == 0 || doc[g - 1].ShownAt(v) ==> AfterChar(doc, v, Offset(doc, v, g)) == g
    ensures g == |doc| || doc[g].ShownAt(v) ==> BeforeChar(doc, v, Offset(doc, v, g)) == g
    ensures AfterChar(doc, v, Offset(doc, v, g)) <= g <= BeforeChar(doc, v, Offset(doc, v, g))
  {
    if doc != [] && g > 0 {
      OffsetCons(doc, v, g);
      ShownAnchors(doc[1..], v, g - 1);
    }
  }

  /** An anchor is at a character that is shown, or at an end. */
  lemma {:induction false} AnchorsAreShown(doc: Document, v: nat, p: nat)
    requires p <= |TextAt(doc, v)|
    ensures AfterChar(doc, v, p) <= |doc| && BeforeChar(doc, v, p) <= |doc|
    ensures AfterChar(doc, v, p) == 0 || doc[AfterChar(doc, v, p) - 1].ShownAt(v)
    ensures BeforeChar(doc, v, p) == |doc| || doc[BeforeChar(doc, v, p)].ShownAt(v)
  {
    if doc != [] {
      if !doc[0].ShownAt(v) {
        AnchorsAreShown(doc[1..], v, p);
      } else if p > 0 {
        AnchorsAreShown(doc[1..], v, p - 1);
      }
    }
  }

  /** The same characters are shown in two versions. */
  predicate SameShown(doc: Document, v: nat, w: nat) {
    forall k | 0 <= k < |doc| :: doc[k].ShownAt(v) == doc[k].ShownAt(w)
  }

  lemma {:induction false} SameText(doc: Document, v: nat, w: nat)
    requires SameShown(doc, v, w)
    ensures TextAt(doc, v) == TextAt(doc, w)
  {
    if doc != [] {
      assert forall k | 0 <= k < |doc[1..]| :: doc[1..][k] == doc[k + 1];
      SameText(doc[1..], v, w);
    }
  }

  // ----- transactions

  /** Puts `text` in at gap `at` and deletes what is shown of the cells from there up to `upto`. */
  datatype Change = Change(at: nat, upto: nat, text: string)

  /** The gap that text is put in at for position `p`: behind the deleted characters there, or in front of them. */
  function Place(doc: Document, v: nat, p: int, front: bool): nat {
    if front then AfterChar(doc, v, p) else BeforeChar(doc, v, p)
  }

  function ChangeOf(doc: Document, v: nat, e: Splice, front: bool): Change {
    var at := Place(doc, v, e.range.start, front);
    Change(at, Max(at, AfterChar(doc, v, e.range.end)), e.text)
  }

  /** What the buffer makes of splices that are apart. The text of the `k`th goes behind the deleted characters at its place,
      unless `k` is in `front`. */
  function ChangesOf(doc: Document, v: nat, made: Splices, front: set<nat>, k: nat): (changes: seq<Change>)
    ensures |changes| == |made|
  {
    if made == [] then []
    else [ChangeOf(doc, v, made[0], k in front)] + ChangesOf(doc, v, made[1..], front, k + 1)
  }

  predicate ChangesApart(changes: seq<Change>, n: nat) {
    && (forall k | 0 <= k < |changes| :: changes[k].at <= changes[k].upto <= n)
    && (forall k, m | 0 <= k < m < |changes| :: changes[k].upto < changes[m].at)
  }

  /** The text put in at gap `g`. */
  function InsAt(changes: seq<Change>, g: nat): string {
    if changes == [] then "" else if changes[0].at == g then changes[0].text else InsAt(changes[1..], g)
  }

  /** Whether cell `c` is deleted if it is shown. */
  predicate GoneAt(changes: seq<Change>, c: nat) {
    changes != [] && (changes[0].at <= c < changes[0].upto || GoneAt(changes[1..], c))
  }

  function Block(text: string, v: nat): Document {
    seq(|text|, k requires 0 <= k < |text| => Cell(text[k], v, None))
  }

  function Left(c: Cell, gone: bool, v: nat): Cell {
    if gone && c.ShownAt(v) then c.(died := Some(v + 1)) else c
  }

  /** What becomes of the cells `i..j`, with what is put in at the gaps before each of them. */
  function Woven(doc: Document, changes: seq<Change>, v: nat, i: nat, j: nat): Document
    requires i <= j <= |doc|
    decreases j
  {
    if i == j then []
    else Woven(doc, changes, v, i, j - 1) + Block(InsAt(changes, j - 1), v + 1) + [Left(doc[j - 1], GoneAt(changes, j - 1), v)]
  }

  /** The document from gap `i` on. */
  function RewrittenFrom(doc: Document, changes: seq<Change>, v: nat, i: nat): Document
    requires i <= |doc|
  {
    Woven(doc, changes, v, i, |doc|) + Block(InsAt(changes, |doc|), v + 1)
  }

  /** The document after a transaction on version `v`. */
  function Rewritten(doc: Document, changes: seq<Change>, v: nat): Document {
    RewrittenFrom(doc, changes, v, 0)
  }

  lemma {:induction false} BlockText(text: string, v: nat, w: nat)
    ensures TextAt(Block(text, v), w) == if v <= w then text else ""
  {
    if text != "" {
      assert Block(text, v)[1..] == Block(text[1..], v);
      BlockText(text[1..], v, w);
    }
  }

  lemma OneCell(c: Cell, v: nat)
    ensures TextAt([c], v) == if c.ShownAt(v) then [c.letter] else ""
  {
    assert [c][1..] == [];
  }

  lemma {:induction false} WovenConcat(doc: Document, changes: seq<Change>, v: nat, i: nat, k: nat, j: nat)
    requires i <= k <= j <= |doc|
    ensures Woven(doc, changes, v, i, j) == Woven(doc, changes, v, i, k) + Woven(doc, changes, v, k, j)
    decreases j
  {
    if k < j {
      WovenConcat(doc, changes, v, i, k, j - 1);
    }
  }

  lemma {:induction false} WovenSame(doc: Document, changes: seq<Change>, changes': seq<Change>, v: nat, i: nat, j: nat)
    requires i <= j <= |doc|
    requires forall g | i <= g < j :: InsAt(changes, g) == InsAt(changes', g) && GoneAt(changes, g) == GoneAt(changes', g)
    ensures Woven(doc, changes, v, i, j) == Woven(doc, changes', v, i, j)
    decreases j
  {
    if i < j {
      WovenSame(doc, changes, changes', v, i, j - 1);
    }
  }

  lemma {:induction false} NothingBefore(changes: seq<Change>, g: nat)
    requires forall k | 0 <= k < |changes| :: g < changes[k].at
    ensures InsAt(changes, g) == "" && !GoneAt(changes, g)
  {
    if changes != [] {
      NothingBefore(changes[1..], g);
    }
  }

  /** Older versions are not rewritten. */
  lemma {:induction false} WovenOld(doc: Document, changes: seq<Change>, v: nat, i: nat, j: nat, w: nat)
    requires i <= j <= |doc| && w <= v
    ensures TextAt(Woven(doc, changes, v, i, j), w) == TextAt(doc[i..j], w)
    decreases j
  {
    hide InsAt, GoneAt, TextAt, Block;
    if i < j {
      var ins := InsAt(changes, j - 1);
      var cell := Left(doc[j - 1], GoneAt(changes, j - 1), v);
      WovenOld(doc, changes, v, i, j - 1, w);
      BlockText(ins, v + 1, w);
      OneCell(cell, w);
      OneCell(doc[j - 1], w);
      TextConcat(Woven(doc, changes, v, i, j - 1), Block(ins, v + 1), w);
      TextConcat(Woven(doc, changes, v, i, j - 1) + Block(ins, v + 1), [cell], w);
      assert doc[i..j] == doc[i..j - 1] + [doc[j - 1]];
      TextConcat(doc[i..j - 1], [doc[j - 1]], w);
    } else {
      assert doc[i..j] == [];
      NoCells(w);
    }
  }

  lemma OlderVersionsStay(doc: Document, changes: seq<Change>, v: nat, w: nat)
    requires w <= v
    ensures TextAt(Rewritten(doc, changes, v), w) == TextAt(doc, w)
  {
    hide InsAt, Woven, TextAt, Block;
    WovenOld(doc, changes, v, 0, |doc|, w);
    TextConcat(Woven(doc, changes, v, 0, |doc|), Block(InsAt(changes, |doc|), v + 1), w);
    BlockText(InsAt(changes, |doc|), v + 1, w);
    assert doc[0..|doc|] == doc;
  }

  lemma {:induction false} WovenKnown(doc: Document, changes: seq<Change>, v: nat, i: nat, j: nat)
    requires i <= j <= |doc| && KnownBy(doc, v)
    ensures KnownBy(Woven(doc, changes, v, i, j), v + 1)
    decreases j
  {
    if i < j {
      WovenKnown(doc, changes, v, i, j - 1);
    }
  }

  lemma RewrittenKnown(doc: Document, changes: seq<Change>, v: nat)
    requires KnownBy(doc, v)
    ensures KnownBy(Rewritten(doc, changes, v), v + 1)
  {
    WovenKnown(doc, changes, v, 0, |doc|);
  }

  /** Cells that a transaction leaves alone. */
  lemma {:induction false} WovenUntouched(doc: Document, changes: seq<Change>, v: nat, i: nat, j: nat)
    requires i <= j <= |doc| && KnownBy(doc, v)
    requires forall g | i <= g < j :: InsAt(changes, g) == "" && !GoneAt(changes, g)
    ensures Woven(doc, changes, v, i, j) == doc[i..j]
    ensures TextAt(Woven(doc, changes, v, i, j), v + 1) == TextAt(doc[i..j], v)
    decreases j
  {
    hide InsAt, GoneAt, TextAt;
    if i < j {
      WovenUntouched(doc, changes, v, i, j - 1);
      assert doc[i..j] == doc[i..j - 1] + [doc[j - 1]];
      TextConcat(doc[i..j - 1], [doc[j - 1]], v);
      TextConcat(doc[i..j - 1], [doc[j - 1]], v + 1);
      OneCell(doc[j - 1], v);
      OneCell(doc[j - 1], v + 1);
    } else {
      assert doc[i..j] == [];
      NoCells(v);
      NoCells(v + 1);
    }
  }

  /** Cells that a transaction deletes. */
  lemma {:induction false} WovenGone(doc: Document, changes: seq<Change>, v: nat, i: nat, j: nat)
    requires i <= j <= |doc| && KnownBy(doc, v)
    requires forall g | i <= g < j :: GoneAt(changes, g) && (g > i ==> InsAt(changes, g) == "")
    ensures TextAt(Woven(doc, changes, v, i, j), v + 1) == if i < j then InsAt(changes, i) else ""
    decreases j
  {
    hide InsAt, GoneAt, TextAt, Block;
    if i < j {
      var ins, cell := InsAt(changes, j - 1), Left(doc[j - 1], GoneAt(changes, j - 1), v);
      WovenGone(doc, changes, v, i, j - 1);
      BlockText(ins, v + 1, v + 1);
      OneCell(cell, v + 1);
      TextConcat(Woven(doc, changes, v, i, j - 1), Block(ins, v + 1), v + 1);
      TextConcat(Woven(doc, changes, v, i, j - 1) + Block(ins, v + 1), [cell], v + 1);
    } else {
      NoCells(v + 1);
    }
  }

  lemma ChangeFits(doc: Document, v: nat, e: Splice, front: bool)
    requires Within(e.range, TextAt(doc, v))
    ensures var c := ChangeOf(doc, v, e, front);
      && c.text == e.text && c.at <= c.upto <= |doc|
      && Offset(doc, v, c.at) == e.range.start && Offset(doc, v, c.upto) == e.range.end
      && AfterChar(doc, v, e.range.start) <= c.at <= BeforeChar(doc, v, e.range.start)
  {
    AnchorsMeet(doc, v, e.range.start);
    AnchorsMeet(doc, v, e.range.end);
    AnchorsAscend(doc, v, e.range.start, e.range.end);
  }

  lemma ChangesSeparate(doc: Document, v: nat, e: Splice, front: bool, e': Splice, front': bool)
    requires Within(e.range, TextAt(doc, v)) && Within(e'.range, TextAt(doc, v)) && e.range.end < e'.range.start
    ensures ChangeOf(doc, v, e, front).upto < ChangeOf(doc, v, e', front').at
  {
    ChangeFits(doc, v, e, front);
    ChangeFits(doc, v, e', front');
    AnchorsMeet(doc, v, e.range.end);
    AnchorsAscend(doc, v, e.range.start, e.range.end);
    AnchorsAscend(doc, v, e.range.end, e'.range.start);
  }

  lemma {:induction false} ChangesAt(doc: Document, v: nat, made: Splices, front: set<nat>, k: nat, m: nat)
    requires m < |made|
    ensures ChangesOf(doc, v, made, front, k)[m] == ChangeOf(doc, v, made[m], k + m in front)
  {
    if m > 0 {
      ChangesAt(doc, v, made[1..], front, k + 1, m - 1);
    }
  }

  lemma ChangesAreApart(doc: Document, v: nat, made: Splices, front: set<nat>, k: nat)
    requires AllIn(made, TextAt(doc, v)) && Apart(made)
    ensures ChangesApart(ChangesOf(doc, v, made, front, k), |doc|)
  {
    hide ChangesOf, ChangeOf;
    var changes := ChangesOf(doc, v, made, front, k);
    forall m | 0 <= m < |changes| ensures changes[m].at <= changes[m].upto <= |doc| {
      ChangesAt(doc, v, made, front, k, m);
      ChangeFits(doc, v, made[m], k + m in front);
    }
    forall m, l | 0 <= m < l < |changes| ensures changes[m].upto < changes[l].at {
      ChangesAt(doc, v, made, front, k, m);
      ChangesAt(doc, v, made, front, k, l);
      ChangesSeparate(doc, v, made[m], k + m in front, made[l], k + l in front);
    }
  }

  lemma ApartRest(changes: seq<Change>, n: nat)
    requires changes != [] && ChangesApart(changes, n)
    ensures ChangesApart(changes[1..], n)
    ensures changes[0].at <= changes[0].upto <= n
    ensures forall k | 0 <= k < |changes[1..]| :: changes[0].upto < changes[1..][k].at
  {
    assert forall k | 0 <= k < |changes[1..]| :: changes[1..][k] == changes[k + 1];
  }

  /** What the first change does, and that the others do nothing up to its end. */
  lemma FirstChange(changes: seq<Change>, n: nat, g: nat)
    requires changes != [] && ChangesApart(changes, n)
    ensures g < changes[0].at ==> InsAt(changes, g) == "" && !GoneAt(changes, g)
    ensures g == changes[0].at ==> InsAt(changes, g) == changes[0].text
    ensures changes[0].at < g <= changes[0].upto ==> InsAt(changes, g) == ""
    ensures changes[0].at <= g < changes[0].upto ==> GoneAt(changes, g)
    ensures g > changes[0].at ==> InsAt(changes, g) == InsAt(changes[1..], g)
    ensures g >= changes[0].upto ==> GoneAt(changes, g) == GoneAt(changes[1..], g)
    ensures g <= changes[0].upto ==> InsAt(changes[1..], g) == "" && !GoneAt(changes[1..], g)
  {
    ApartRest(changes, n);
    if g <= changes[0].upto {
      NothingBefore(changes[1..], g);
    }
  }

  lemma RewrittenUntouched(doc: Document, v: nat, i: nat)
    requires KnownBy(doc, v) && i <= |doc|
    ensures TextAt(RewrittenFrom(doc, [], v, i), v + 1) == TextAt(doc[i..], v)
  {
    WovenUntouched(doc, [], v, i, |doc|);
    assert Block("", v + 1) == [];
    assert RewrittenFrom(doc, [], v, i) == Woven(doc, [], v, i, |doc|);
    assert doc[i..|doc|] == doc[i..];
  }

  /** The document from the first change on. */
  lemma RewrittenAtChange(doc: Document, changes: seq<Change>, v: nat)
    requires changes != [] && ChangesApart(changes, |doc|) && KnownBy(doc, v)
    ensures changes[0].upto <= |doc|
    ensures TextAt(RewrittenFrom(doc, changes, v, changes[0].at), v + 1)
         == changes[0].text + TextAt(RewrittenFrom(doc, changes[1..], v, changes[0].upto), v + 1)
  {
    hide InsAt, GoneAt, TextAt, Woven, Block, ChangesApart;
    ApartRest(changes, |doc|);
    var c, n := changes[0], |doc|;
    var last := Block(InsAt(changes, n), v + 1);
    forall g: nat ensures
      && (g == c.at ==> InsAt(changes, g) == c.text)
      && (c.at < g <= c.upto ==> InsAt(changes, g) == "")
      && (c.at <= g < c.upto ==> GoneAt(changes, g))
      && (g > c.at ==> InsAt(changes, g) == InsAt(changes[1..], g))
      && (g >= c.upto ==> GoneAt(changes, g) == GoneAt(changes[1..], g))
      && (g <= c.upto ==> InsAt(changes[1..], g) == "")
    {
      FirstChange(changes, n, g);
    }
    var rest := RewrittenFrom(doc, changes[1..], v, c.upto);
    if c.at < c.upto {
      WovenConcat(doc, changes, v, c.at, c.upto, n);
      WovenGone(doc, changes, v, c.at, c.upto);
      WovenSame(doc, changes, changes[1..], v, c.upto, n);
      var gone := Woven(doc, changes, v, c.at, c.upto);
      assert RewrittenFrom(doc, changes, v, c.at) == gone + rest;
      TextConcat(gone, rest, v + 1);
    } else {
      RewrittenAtInsertion(doc, changes, v);
    }
  }

  lemma RewrittenAtInsertion(doc: Document, changes: seq<Change>, v: nat)
    requires changes != [] && ChangesApart(changes, |doc|) && changes[0].at == changes[0].upto
    ensures changes[0].upto <= |doc|
    ensures TextAt(RewrittenFrom(doc, changes, v, changes[0].at), v + 1)
         == changes[0].text + TextAt(RewrittenFrom(doc, changes[1..], v, changes[0].at), v + 1)
  {
    hide InsAt, GoneAt, TextAt, Block, ChangesApart, RewrittenFrom;
    ApartRest(changes, |doc|);
    var c, n := changes[0], |doc|;
    forall g: nat | c.at <= g
      ensures (g > c.at ==> InsAt(changes, g) == InsAt(changes[1..], g)) && GoneAt(changes, g) == GoneAt(changes[1..], g)
    {
      FirstChange(changes, n, g);
    }
    FirstChange(changes, n, c.at);
    BlockText(c.text, v + 1, v + 1);
    NoBlock(v + 1);
    NoCells(v + 1);
    if c.at == n {
      RewrittenEnd(doc, changes, v);
      RewrittenEnd(doc, changes[1..], v);
    } else {
      RewrittenStep(doc, changes, v, c.at);
      RewrittenStep(doc, changes[1..], v, c.at);
      RewrittenSame(doc, changes, changes[1..], v, c.at + 1);
      var rest := [Left(doc[c.at], GoneAt(changes, c.at), v)] + RewrittenFrom(doc, changes, v, c.at + 1);
      assert [] + rest == rest;
      TextConcat(Block(c.text, v + 1), rest, v + 1);
    }
  }

  lemma RewrittenEnd(doc: Document, changes: seq<Change>, v: nat)
    ensures RewrittenFrom(doc, changes, v, |doc|) == Block(InsAt(changes, |doc|), v + 1)
  {
    assert Woven(doc, changes, v, |doc|, |doc|) == [];
  }

  lemma RewrittenStep(doc: Document, changes: seq<Change>, v: nat, i: nat)
    requires i < |doc|
    ensures RewrittenFrom(doc, changes, v, i)
         == Block(InsAt(changes, i), v + 1) + ([Left(doc[i], GoneAt(changes, i), v)] + RewrittenFrom(doc, changes, v, i + 1))
  {
    hide InsAt, GoneAt, Block;
    WovenConcat(doc, changes, v, i, i + 1, |doc|);
    OneWoven(doc, changes, v, i);
  }

  lemma RewrittenSame(doc: Document, changes: seq<Change>, changes': seq<Change>, v: nat, i: nat)
    requires i <= |doc|
    requires forall g: nat | i <= g :: InsAt(changes, g) == InsAt(changes', g) && GoneAt(changes, g) == GoneAt(changes', g)
    ensures RewrittenFrom(doc, changes, v, i) == RewrittenFrom(doc, changes', v, i)
  {
    WovenSame(doc, changes, changes', v, i, |doc|);
  }

  lemma NoBlock(v: nat)
    ensures Block("", v) == []
  {
  }

  lemma OneWoven(doc: Document, changes: seq<Change>, v: nat, i: nat)
    requires i < |doc|
    ensures Woven(doc, changes, v, i, i + 1) == Block(InsAt(changes, i), v + 1) + [Left(doc[i], GoneAt(changes, i), v)]
  {
    assert Woven(doc, changes, v, i, i) == [];
  }

  /** What is shown from gap `i` on after the transaction are the splices made from there on. */
  lemma {:induction false} RewrittenShows(doc: Document, v: nat, made: Splices, front: set<nat>, k: nat, i: nat)
    requires KnownBy(doc, v) && i <= |doc| && Apart(made) && InOrder(made, TextAt(doc, v), Offset(doc, v, i))
    requires made != [] ==> i <= ChangeOf(doc, v, made[0], k in front).at
    ensures TextAt(RewrittenFrom(doc, ChangesOf(doc, v, made, front, k), v, i), v + 1)
         == SpliceFrom(made, TextAt(doc, v), Offset(doc, v, i))
    decreases |made|
  {
    hide TextAt, Woven, ChangeOf, InsAt, GoneAt, Offset, RewrittenFrom, ChangesApart;
    var t := TextAt(doc, v);
    if made == [] {
      RewrittenUntouched(doc, v, i);
      TextSlice(doc, v, i, |doc|);
      EdgeOffsets(doc, v);
      assert doc[i..|doc|] == doc[i..];
    } else {
      var changes := ChangesOf(doc, v, made, front, k);
      var c := changes[0];
      InOrderWithin(made, t, Offset(doc, v, i));
      FirstSplice(made, t, Offset(doc, v, i));
      ChangesAreApart(doc, v, made, front, k);
      ChangesAt(doc, v, made, front, k, 0);
      ChangeFits(doc, v, made[0], k in front);
      RewrittenUpTo(doc, changes, v, i);
      RewrittenAtChange(doc, changes, v);
      TextSlice(doc, v, i, c.at);
      assert changes[1..] == ChangesOf(doc, v, made[1..], front, k + 1);
      if made[1..] != [] {
        ChangesAt(doc, v, made, front, k, 1);
        ApartRest(changes, |doc|);
        assert changes[1] == changes[1..][0];
      }
      ApartTail(made);
      RewrittenShows(doc, v, made[1..], front, k + 1, c.upto);
      ConcatAssociates(t[Offset(doc, v, i)..made[0].range.start], made[0].text, SpliceFrom(made[1..], t, made[0].range.end));
    }
  }

  lemma RewrittenUpTo(doc: Document, changes: seq<Change>, v: nat, i: nat)
    requires changes != [] && ChangesApart(changes, |doc|) && KnownBy(doc, v) && i <= changes[0].at
    ensures changes[0].at <= |doc|
    ensures TextAt(RewrittenFrom(doc, changes, v, i), v + 1)
         == TextAt(doc[i..changes[0].at], v) + TextAt(RewrittenFrom(doc, changes, v, changes[0].at), v + 1)
  {
    hide TextAt, Woven, InsAt, GoneAt;
    var at, n := changes[0].at, |doc|;
    forall g: nat | i <= g < at ensures InsAt(changes, g) == "" && !GoneAt(changes, g) {
      FirstChange(changes, n, g);
    }
    WovenConcat(doc, changes, v, i, at, n);
    WovenUntouched(doc, changes, v, i, at);
    assert RewrittenFrom(doc, changes, v, i) == Woven(doc, changes, v, i, at) + RewrittenFrom(doc, changes, v, at);
    TextConcat(Woven(doc, changes, v, i, at), RewrittenFrom(doc, changes, v, at), v + 1);
  }

  /** The new version shows what the splices make of the old one. */
  lemma RewrittenText(doc: Document, v: nat, made: Splices, front: set<nat>)
    requires KnownBy(doc, v) && Apart(made) && InOrder(made, TextAt(doc, v), 0)
    ensures TextAt(Rewritten(doc, ChangesOf(doc, v, made, front, 0), v), v + 1) == SpliceFrom(made, TextAt(doc, v), 0)
  {
    EdgeOffsets(doc, v);
    RewrittenShows(doc, v, made, front, 0, 0);
  }

  /** A character that is shown and deleted is one that a splice replaces. */
  lemma {:induction false} GoneIsReplaced(doc: Document, v: nat, made: Splices, front: set<nat>, k: nat, c: nat)
    requires AllIn(made, TextAt(doc, v)) && c < |doc| && doc[c].ShownAt(v) && GoneAt(ChangesOf(doc, v, made, front, k), c)
    ensures Replaces(made, Offset(doc, v, c))
    decreases |made|
  {
    hide TextAt, ChangeOf, Replaces, Offset;
    assert made != [];
    var e, change := made[0], ChangeOf(doc, v, made[0], k in front);
    assert made == [e] + made[1..];
    ReplacesCons(e, made[1..], Offset(doc, v, c));
    if change.at <= c < change.upto {
      ChangeFits(doc, v, e, k in front);
      StepOffset(doc, v, c);
      OffsetSplits(doc, v, change.at, c);
      OffsetSplits(doc, v, c + 1, change.upto);
    } else {
      assert forall m | 0 <= m < |made[1..]| :: made[1..][m] == made[m + 1];
      GoneIsReplaced(doc, v, made[1..], front, k + 1, c);
    }
  }
}
