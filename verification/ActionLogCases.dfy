/** Runs of the action log in which accepting is lost, and in which undoing a reject does not restore the text. */
module ActionLogCases {
  import opened Options
  import opened LineText
  import opened Patches
  import opened RowEdits
  import opened Review
  import opened Buffers
  import opened Documents
  import opened Anchors
  import opened Rejection
  import opened ActionLogs
  import opened ActionLogRuns

  // ----- single steps

  lemma IsAtInv(s: Log, buffer: string, v: nat, base: string, snapshot: string, at: nat, queue: seq<Update>, f: Option<InFlight>)
    requires IsAt(s, buffer, v, base, snapshot, at, queue, f)
    ensures Inv(s) && s.buffer == buffer && s.version == v && s.tracked.Some?
    ensures var t := s.tracked.value; t.diffBase == base && t.queue == queue && t.inFlight == f
  {
  }

  lemma OneMoreStep(s: Log, ops: seq<Op>, k: nat, t: Log)
    requires Inv(s) && k < |ops| && Enabled(s, ops[k]) && Inv(Next(s, ops[k])) && Runs(Next(s, ops[k]), ops[k + 1..], t)
    ensures Runs(s, ops[k..], t)
  {
    assert ops[k..][1..] == ops[k + 1..];
  }

  lemma OneEditTakes(a: string, b: string, e: Edit)
    requires Within(e.before, a) && Within(e.after, b)
    requires a[..e.before.start] == b[..e.after.start] && a[e.before.end..] == b[e.after.end..]
    ensures Takes([e], a, b) && Separated([e])
  {
    assert [e][1..] == [] && a[0..e.before.start] == b[0..e.after.start];
  }

  /** What a modified buffer is at in a run, whatever is under review. */
  ghost predicate IsAt(s: Log, buffer: string, version: nat, base: string, snapshot: string, at: nat, queue: seq<Update>,
                       inFlight: Option<InFlight>) {
    && Inv(s) && s.buffer == buffer && s.version == version && s.tracked.Some?
    && var t := s.tracked.value;
       && t.diffBase == base && t.snapshot == snapshot && t.snapshotAt == at && t.status == Modified
       && t.queue == queue && t.inFlight == inFlight
  }

  lemma Reads(s: Log)
    requires Inv(s) && s.tracked.None?
    ensures Enabled(s, BufferRead) && Inv(Next(s, BufferRead))
    ensures IsAt(Next(s, BufferRead), s.buffer, s.version, s.buffer, s.buffer, s.version, [], None)
  {
    StepKeepsInv(s, BufferRead);
    hide Inv;
  }

  lemma AgentMakes(s: Log, buffer: string, v: nat, base: string, snapshot: string, at: nat, e: Splice, buffer': string)
    requires IsAt(s, buffer, v, base, snapshot, at, [], None)
    requires Within(e.range, buffer) && !e.IsNothing() && buffer' == buffer[..e.range.start] + e.text + buffer[e.range.end..]
    ensures Inv(s) && Enabled(s, AgentEdits([e], {})) && Inv(Next(s, AgentEdits([e], {})))
    ensures IsAt(Next(s, AgentEdits([e], {})), buffer', v + 1, base, snapshot, at, [Update(Agent, buffer', v + 1)], None)
  {
    hide Rewritten, ChangesFor, Carried, Inv;
    OneSplice(e, s.buffer);
    CoalescedInOrder([e], s.buffer, 0);
    StepKeepsInv(s, AgentEdits([e], {}));
  }

  lemma OneSplice(e: Splice, t: string)
    requires Within(e.range, t) && !e.IsNothing()
    ensures InOrder([e], t, 0) && Coalesced([e]) == [e]
    ensures SpliceFrom([e], t, 0) == t[..e.range.start] + e.text + t[e.range.end..]
  {
    assert [e][1..] == [];
  }

  /** An edit of the user's. */
  lemma UserMakes(s: Log, buffer: string, v: nat, base: string, snapshot: string, at: nat, e: Splice, buffer': string)
    requires IsAt(s, buffer, v, base, snapshot, at, [], None)
    requires Within(e.range, buffer) && !e.IsNothing() && buffer' == buffer[..e.range.start] + e.text + buffer[e.range.end..]
    ensures Inv(s) && Enabled(s, UserEdits([e], {})) && Inv(Next(s, UserEdits([e], {})))
    ensures IsAt(Next(s, UserEdits([e], {})), buffer', v + 1, base, snapshot, at, [Update(User, buffer', v + 1)], None)
    ensures Next(s, UserEdits([e], {})).tracked.value.unreviewed == s.tracked.value.unreviewed
  {
    hide Rewritten, ChangesFor, Carried, Anchored, Reviewed, Snapshots;
    OneSplice(e, s.buffer);
    CoalescedInOrder([e], s.buffer, 0);
    StepKeepsInv(s, UserEdits([e], {}));
  }

  lemma AgentStarts(s: Log, buffer: string, v: nat, base: string, snapshot: string, at: nat, text: string, w: nat, e: Edit)
    requires IsAt(s, buffer, v, base, snapshot, at, [Update(Agent, text, w)], None) && Takes([e], snapshot, text)
    ensures Inv(s) && Enabled(s, StartTracking([e])) && Inv(Next(s, StartTracking([e])))
    ensures IsAt(Next(s, StartTracking([e])), buffer, v, base, snapshot, at, [], Some(InFlight(text, w, base)))
  {
    StepKeepsInv(s, StartTracking([e]));
    hide Inv, Takes, Rebased, RowsChanged;
  }

  lemma Finishes(s: Log, buffer: string, v: nat, base: string, snapshot: string, at: nat, queue: seq<Update>, f: InFlight, e: Edit)
    requires IsAt(s, buffer, v, base, snapshot, at, queue, Some(f))
    requires Takes([e], f.base, f.snapshot) && !e.IsEmpty() && f.base != f.snapshot
    ensures Inv(s) && Enabled(s, FinishUpdate([e])) && Inv(Next(s, FinishUpdate([e])))
    ensures IsAt(Next(s, FinishUpdate([e])), buffer, v, f.base, f.snapshot, f.at, queue, None)
  {
    StepKeepsInv(s, FinishUpdate([e]));
    hide Inv, Takes, RowEditsOf, CoalesceAll;
  }

  lemma KeepsAll(s: Log, buffer: string, v: nat, base: string, snapshot: string, at: nat, inFlight: Option<InFlight>)
    requires IsAt(s, buffer, v, base, snapshot, at, [], inFlight)
    ensures Inv(s) && Enabled(s, KeepAllEdits) && Inv(Next(s, KeepAllEdits))
    ensures IsAt(Next(s, KeepAllEdits), buffer, v, snapshot, snapshot, at, [Update(User, buffer, v)], inFlight)
  {
    StepKeepsInv(s, KeepAllEdits);
    hide Inv;
  }

  /** An update that changes nothing. */
  lemma StartsNothing(s: Log, buffer: string, v: nat, base: string, snapshot: string, at: nat, author: Author, w: nat)
    requires IsAt(s, buffer, v, base, snapshot, at, [Update(author, snapshot, w)], None)
    ensures Inv(s) && Enabled(s, StartTracking([])) && Inv(Next(s, StartTracking([])))
    ensures IsAt(Next(s, StartTracking([])), buffer, v, base, snapshot, at, [], Some(InFlight(snapshot, w, base)))
  {
    hide Inv, Takes, Rebased, RowsChanged, Separated;
    UnchangedTextKeepsBase(s);
    StepKeepsInv(s, StartTracking([]));
  }

  // ----- accepting is lost

  /** The agent makes two edits, and everything is accepted while the update for the second is in flight. */
  function LostOps(): seq<Op> {
    var first, second, both := Edit(Span(0, 1), Span(0, 1)), Edit(Span(1, 1), Span(1, 2)), Edit(Span(0, 1), Span(0, 2));
    [BufferRead, AgentEdits([Splice(Span(0, 1), "b")], {}), StartTracking([first]), FinishUpdate([first]),
     AgentEdits([Splice(Span(1, 1), "c")], {}), StartTracking([second]), KeepAllEdits, FinishUpdate([both]),
     StartTracking([]), FinishUpdate([both])]
  }

  lemma LostTexts()
    ensures Takes([Edit(Span(0, 1), Span(0, 1))], "a", "b") && Takes([Edit(Span(1, 1), Span(1, 2))], "b", "bc")
    ensures Takes([Edit(Span(0, 1), Span(0, 2))], "a", "bc")
    ensures "a" != "b" && "a" != "bc" && "b" == "a"[..0] + "b" + "a"[1..] && "bc" == "b"[..1] + "c" + "b"[1..]
  {
    OneEditTakes("a", "b", Edit(Span(0, 1), Span(0, 1)));
    OneEditTakes("b", "bc", Edit(Span(1, 1), Span(1, 2)));
    OneEditTakes("a", "bc", Edit(Span(0, 1), Span(0, 2)));
  }

  lemma LostOpsAre()
    ensures var ops := LostOps();
      && |ops| == 10 && ops[0] == BufferRead && ops[1] == AgentEdits([Splice(Span(0, 1), "b")], {})
      && ops[2] == StartTracking([Edit(Span(0, 1), Span(0, 1))]) && ops[3] == FinishUpdate([Edit(Span(0, 1), Span(0, 1))])
      && ops[4] == AgentEdits([Splice(Span(1, 1), "c")], {}) && ops[5] == StartTracking([Edit(Span(1, 1), Span(1, 2))])
      && ops[6] == KeepAllEdits && ops[7] == FinishUpdate([Edit(Span(0, 1), Span(0, 2))])
      && ops[8] == StartTracking([]) && ops[9] == ops[7]
  {
  }

  /** A run in which accepting is lost: when all updates have been processed, both edits are under review again. */
  lemma KeepLost(s: Log) returns (t: Log)
    requires Initial(s) && s.buffer == "a" && s.version == 0
    ensures Inv(s) && Runs(s, LostOps(), t) && Inv(t)
    ensures t.buffer == "bc" && t.tracked.Some? && Drained(t.tracked.value) && t.tracked.value.diffBase == "a"
  {
    hide Initial, Inv, Runs, Next, Enabled, IsAt, LostOps;
    var ops := LostOps();
    LostOpsAre();
    InitialInv(s);
    Reads(s);
    t := LostEdits(Next(s, ops[0]));
    OneMoreStep(s, ops, 0, t);
    IsAtInv(t, "bc", 2, "a", "bc", 2, [], None);
    assert ops[0..] == ops;
  }

  lemma LostEdits(s1: Log) returns (t: Log)
    requires IsAt(s1, "a", 0, "a", "a", 0, [], None)
    ensures Inv(s1) && Runs(s1, LostOps()[1..], t) && IsAt(t, "bc", 2, "a", "bc", 2, [], None)
  {
    var ops := LostOps();
    LostTexts();
    LostOpsAre();
    hide Inv, Runs, Next, Enabled, Takes, Separated, TakesFrom, IsAt, LostOps;
    AgentMakes(s1, "a", 0, "a", "a", 0, Splice(Span(0, 1), "b"), "b");
    var s2 := Next(s1, ops[1]);
    AgentStarts(s2, "b", 1, "a", "a", 0, "b", 1, Edit(Span(0, 1), Span(0, 1)));
    var s3 := Next(s2, ops[2]);
    Finishes(s3, "b", 1, "a", "a", 0, [], InFlight("b", 1, "a"), Edit(Span(0, 1), Span(0, 1)));
    var s4 := Next(s3, ops[3]);
    AgentMakes(s4, "b", 1, "a", "b", 1, Splice(Span(1, 1), "c"), "bc");
    var s5 := Next(s4, ops[4]);
    AgentStarts(s5, "bc", 2, "a", "b", 1, "bc", 2, Edit(Span(1, 1), Span(1, 2)));
    var s6 := Next(s5, ops[5]);
    t := LostRest(s6);
    OneMoreStep(s5, ops, 5, t);
    OneMoreStep(s4, ops, 4, t);
    OneMoreStep(s3, ops, 3, t);
    OneMoreStep(s2, ops, 2, t);
    OneMoreStep(s1, ops, 1, t);
  }

  lemma LostRest(s6: Log) returns (t: Log)
    requires IsAt(s6, "bc", 2, "a", "b", 1, [], Some(InFlight("bc", 2, "a")))
    ensures Inv(s6) && Runs(s6, LostOps()[6..], t) && IsAt(t, "bc", 2, "a", "bc", 2, [], None)
  {
    var ops := LostOps();
    LostTexts();
    LostOpsAre();
    hide Inv, Runs, Next, Enabled, Takes, Separated, TakesFrom, IsAt, LostOps;
    KeepsAll(s6, "bc", 2, "a", "b", 1, Some(InFlight("bc", 2, "a")));
    var s7 := Next(s6, ops[6]);
    Finishes(s7, "bc", 2, "b", "b", 1, [Update(User, "bc", 2)], InFlight("bc", 2, "a"), Edit(Span(0, 1), Span(0, 2)));
    var s8 := Next(s7, ops[7]);
    StartsNothing(s8, "bc", 2, "a", "bc", 2, User, 2);
    var s9 := Next(s8, ops[8]);
    Finishes(s9, "bc", 2, "a", "bc", 2, [], InFlight("bc", 2, "a"), Edit(Span(0, 1), Span(0, 2)));
    t := Next(s9, ops[9]);
    NoMoreSteps(t, ops);
    OneMoreStep(s9, ops, 9, t);
    OneMoreStep(s8, ops, 8, t);
    OneMoreStep(s7, ops, 7, t);
    OneMoreStep(s6, ops, 6, t);
  }

  lemma NoMoreSteps(t: Log, ops: seq<Op>)
    requires Inv(t)
    ensures Runs(t, ops[|ops|..], t)
  {
  }

  /** Hunks that change the number of rows can make up for each other: here one takes a row out and another puts it in, so
      that accepting both leaves the rows of the base as they are, although neither puts in what it takes out. */
  lemma HunksMakeUp(a: seq<string>, b: seq<string>, p: Patch)
    requires |a| == |b| == 4 && a[..3] == b[..3] && a[0] == a[1] && IsLineText(a) && IsLineText(b)
    requires p == [Edit(Span(0, 1), Span(0, 0)), Edit(Span(2, 2), Span(1, 2)), Edit(Span(3, 4), Span(3, 4))]
    ensures Takes(p, a, b) && Separated(p) && StartInside(p, |b|)
    ensures Pick(p, Touched(Span(0, 1))) == [p[0], p[1]] && !IsSame(p[0], a, b) && !IsSame(p[1], a, b)
    ensures Fits([p[0], p[1]], a, b, 0) && Apply([p[0], p[1]], a, b) == a
  {
    hide IsLineText, TakesFrom, Fits, ApplyFrom, Pick;
    HunksTake(a, b, p[0], p[1], p[2]);
    HunksApply(a, b, p[0], p[1]);
    HunksTouched(p[0], p[1], p[2]);
    assert p == [p[0], p[1], p[2]];
  }

  lemma HunksTake(a: seq<string>, b: seq<string>, e: Edit, f: Edit, g: Edit)
    requires |a| == |b| == 4 && a[..3] == b[..3] && a[0] == a[1]
    requires e == Edit(Span(0, 1), Span(0, 0)) && f == Edit(Span(2, 2), Span(1, 2)) && g == Edit(Span(3, 4), Span(3, 4))
    ensures Takes([e, f, g], a, b)
  {
    assert [e, f, g][1..] == [f, g] && [f, g][1..] == [g] && [g][1..] == [];
    assert a[4..] == b[4..] && a[2..3] == b[2..3] && a[1..2] == b[0..1] && a[0..0] == b[0..0];
    assert TakesFrom([g], a, b, 2, 2) && TakesFrom([f, g], a, b, 1, 0);
  }

  lemma HunksApply(a: seq<string>, b: seq<string>, e: Edit, f: Edit)
    requires |a| == |b| == 4 && a[..3] == b[..3] && a[0] == a[1]
    requires e == Edit(Span(0, 1), Span(0, 0)) && f == Edit(Span(2, 2), Span(1, 2))
    ensures Fits([e, f], a, b, 0) && Apply([e, f], a, b) == a
  {
    assert [e, f][1..] == [f] && [f][1..] == [];
    assert ApplyFrom([f], a, b, 1) == a[1..2] + b[1..2] + a[2..];
    assert a[1..2] + b[1..2] + a[2..] == a && a[0..0] + Slice(b, e.after) == [] && [] + a == a;
  }

  lemma HunksTouched(e: Edit, f: Edit, g: Edit)
    requires e == Edit(Span(0, 1), Span(0, 0)) && f == Edit(Span(2, 2), Span(1, 2)) && g == Edit(Span(3, 4), Span(3, 4))
    ensures Pick([e, f, g], Touched(Span(0, 1))) == [e, f]
  {
    assert [e, f, g][1..] == [f, g] && [f, g][1..] == [g] && [g][1..] == [];
    assert Pick([g], Touched(Span(0, 1))) == [];
  }

  // ----- undo does not restore

  lemma OneChange(c: Change, g: nat)
    ensures InsAt([c], g) == if c.at == g then c.text else ""
    ensures GoneAt([c], g) <==> c.at <= g < c.upto
  {
    assert [c][1..] == [];
  }

  lemma {:induction false} WovenDeletes(doc: Document, c: Change, v: nat, j: nat)
    requires c.text == "" && j <= |doc|
    ensures |Woven(doc, [c], v, 0, j)| == j
    ensures forall k | 0 <= k < j :: Woven(doc, [c], v, 0, j)[k] == Documents.Left(doc[k], c.at <= k < c.upto, v)
  {
    hide InsAt, GoneAt;
    if j > 0 {
      WovenDeletes(doc, c, v, j - 1);
      OneChange(c, j - 1);
    }
  }

  /** A transaction that puts nothing in only marks what it deletes. */
  lemma RewrittenDeletes(doc: Document, c: Change, v: nat)
    requires c.text == ""
    ensures |Rewritten(doc, [c], v)| == |doc|
    ensures forall k | 0 <= k < |doc| :: Rewritten(doc, [c], v)[k] == Documents.Left(doc[k], c.at <= k < c.upto, v)
  {
    hide InsAt, GoneAt, Woven;
    WovenDeletes(doc, c, v, |doc|);
    OneChange(c, |doc|);
  }

  /** A text of two rows, the first of one character, and its document when all is shown, when the first row has been
      deleted, and when the rest has been deleted too. */
  datatype Example = Example(base: string, row: string, rest: string, shown: Document, without: Document, deleted: Document)

  predicate IsExample(x: Example) {
    && |x.row| == 2 && x.row[0] != '\n' && x.row[1] == '\n' && |x.rest| == 1 && x.rest[0] != '\n' && x.base == x.row + x.rest
    && x.shown == [Cell(x.row[0], 0, None), Cell('\n', 0, None), Cell(x.rest[0], 0, None)]
    && x.without == [Cell(x.row[0], 0, Some(1)), Cell('\n', 0, Some(1)), Cell(x.rest[0], 0, None)]
    && x.deleted == [Cell(x.row[0], 0, Some(1)), Cell('\n', 0, Some(1)), Cell(x.rest[0], 0, Some(2))]
  }

  /** A row was deleted by the agent, and the text after it by the user since. */
  ghost predicate LostAnchor(s: Log, x: Example) {
    && IsExample(x) && Inv(s) && s.version == 2 && s.buffer == "" && s.doc == x.deleted && s.tracked.Some?
    && var t := s.tracked.value;
       && t.diffBase == x.base && t.snapshot == x.rest && t.snapshotAt == 1 && t.status == Modified
       && t.unreviewed == [Edit(Span(0, 1), Span(0, 0))]
  }

  lemma LostAnchorAnchors(x: Example)
    requires IsExample(x)
    ensures var d := x.deleted;
      && AfterChar(d, 1, 0) == 0 && BeforeChar(d, 1, 0) == 2 && AfterChar(d, 2, 0) == 0 && BeforeChar(d, 2, 0) == 3
      && TextAt(d[0..2], 2) == "" && Offset(d, 2, 0) == 0 && Offset(d, 2, 2) == 0
  {
    var d := x.deleted;
    var d1, d2 := d[1..], d[1..][1..];
    assert d2 == [d[2]] && d2[1..] == [];
    assert BeforeChar(d2, 1, 0) == 0 && BeforeChar(d1, 1, 0) == 1;
    assert BeforeChar(d2, 2, 0) == 1 && BeforeChar(d1, 2, 0) == 2;
    assert d[0..2] == [d[0], d[1]] && d[0..2][1..] == [d[1]] && [d[1]][1..] == [] && d[..2] == d[0..2];
    assert TextAt([d[1]], 2) == "" && d[..0] == [];
  }

  lemma LostAnchorHunk(s: Log, x: Example)
    requires LostAnchor(s, x)
    ensures var h, p := HistoryOf(s), s.tracked.value.unreviewed;
      && HunkStart(p[0], h) == 0 && HunkEnd(p[0], h) == 2 && HunkRange(p[0], h) == Span(0, 0)
      && Placed(p) && HunkRows(p, h) == [Span(0, 0)] && Selected([Span(0, 0)], [Span(0, 0)]) == [true]
  {
    LostAnchorAnchors(x);
    HistoryShows(s);
    var h, p := HistoryOf(s), s.tracked.value.unreviewed;
    assert p[1..] == [];
    assert RowStart(x.rest, 0) == 0 && RowOf("", 0) == 0;
    hide TextAt, AfterChar, BeforeChar, Offset, Inv;
  }

  lemma LostAnchorChosen(s: Log, x: Example)
    requires LostAnchor(s, x)
    ensures Rejected(s, [Span(0, 0)]) == s.tracked.value.unreviewed
  {
    LostAnchorHunk(s, x);
    var p := s.tracked.value.unreviewed;
    assert p[1..] == [];
    assert Choose(p, [true]) == p;
    hide TextAt, HunkRange, HunkStart, HunkEnd, HunkRows, Selected;
  }

  lemma FirstRowOf(x: Example)
    requires IsExample(x)
    ensures RowSlice(x.base, 0, 1) == x.row
  {
    var t := x.base;
    assert LineLen(t[1..]) == 0 && LineLen(t) == 1;
    assert RowStart(t[2..], 0) == 0 && RowStart(t, 1) == 2;
  }

  lemma LostAnchorReverts(s: Log, x: Example)
    requires LostAnchor(s, x)
    ensures Reverting(s, [Span(0, 0)]) == [Splice(Span(0, 0), x.row)]
    ensures Remembered(s, [Span(0, 0)]) == [Memo(0, 2, "")]
  {
    var h, p := HistoryOf(s), s.tracked.value.unreviewed;
    LostAnchorHunk(s, x);
    LostAnchorChosen(s, x);
    LostAnchorAnchors(x);
    FirstRowOf(x);
    RevertingIs(s, [Span(0, 0)]);
    hide Reverting, Rejected, TextAt, HunkRange, HunkStart, HunkEnd, RowSlice, Inv, RowStart, IsExample;
    assert p[1..] == [];
    HunkMemoAt(p, h, 0);
    assert HunkMemos(p, h)[0] == Memo(0, 2, "");
    assert Reverts(p, x.base, h)[0] == Splice(Span(0, 0), x.row);
  }

  /** The row comes back behind the deleted character that the end of its hunk is attached to, so undoing leaves it there. */
  lemma LostAnchorFails(s: Log, x: Example)
    requires LostAnchor(s, x)
    ensures !PutsInside(s, [Span(0, 0)], {})
  {
    var made, memos := [Splice(Span(0, 0), x.row)], [Memo(0, 2, "")];
    LostAnchorReverts(s, x);
    LostAnchorAnchors(x);
    RowPutBack(x);
    hide TextAt, ChangesOf, Reverting, Remembered, Inv, IsExample, Covers;
    assert ChangesFor(s, made, {})[0] == Change(3, 3, x.row);
    assert !Covers(memos, 3) by { OneCovers(memos[0], 3); }
    assert x.row != "" by { ExampleRows(x); }
  }

  lemma ExampleRows(x: Example)
    requires IsExample(x)
    ensures x.row != "" && |x.base| == 3 && |x.rest| == 1 && x.base != x.rest
    ensures x.rest == x.base[..0] + "" + x.base[2..] && "" == x.rest[..0] + "" + x.rest[1..]
    ensures Takes([Edit(Span(0, 2), Span(0, 0))], x.base, x.rest)
  {
    OneEditTakes(x.base, x.rest, Edit(Span(0, 2), Span(0, 0)));
  }

  lemma OneCovers(m: Memo, g: nat)
    ensures Covers([m], g) <==> m.start <= g <= m.end
  {
    assert [m][0] == m;
  }

  lemma RowPutBack(x: Example)
    requires IsExample(x)
    ensures var made := [Splice(Span(0, 0), x.row)];
      Coalesced(made) == made && ChangesOf(x.deleted, 2, made, {}, 0) == [Change(3, 3, x.row)]
  {
    var made := [Splice(Span(0, 0), x.row)];
    LostAnchorAnchors(x);
    hide AfterChar, BeforeChar;
    assert made[1..] == [] && Coalesced(made) == made;
    ChangesAt(x.deleted, 2, made, {}, 0, 0);
  }

  /** What an edit does to the document, if it only deletes. */
  lemma DeletesCells(s: Log, op: Op, e: Splice, c: Change)
    requires Inv(s) && Within(e.range, s.buffer) && e.text == "" && e.range.start < e.range.end
    requires op == AgentEdits([e], {}) || op == UserEdits([e], {})
    requires c == ChangeOf(s.doc, s.version, e, false)
    ensures Enabled(s, op)
    ensures var d := Next(s, op).doc;
      |d| == |s.doc| && forall k | 0 <= k < |d| :: d[k] == Documents.Left(s.doc[k], c.at <= k < c.upto, s.version)
  {
    assert c.text == "";
    hide Inv, Rewritten, ChangeOf;
    OneSplice(e, s.buffer);
    CoalescedInOrder([e], s.buffer, 0);
    assert [e][1..] == [];
    assert ChangesFor(s, [e], {}) == [c];
    RewrittenDeletes(s.doc, c, s.version);
  }

  lemma FirstRowUnderReview(s: Log, x: Example)
    requires IsAt(s, x.rest, 1, x.base, x.base, 0, [], Some(InFlight(x.rest, 1, x.base))) && IsExample(x)
    requires Inv(s) && Enabled(s, FinishUpdate([Edit(Span(0, 2), Span(0, 0))]))
    ensures Next(s, FinishUpdate([Edit(Span(0, 2), Span(0, 0))])).tracked.value.unreviewed == [Edit(Span(0, 1), Span(0, 0))]
  {
    hide Inv, Enabled, Next, PointToRowEdit;
    FinishInstalls(s, Edit(Span(0, 2), Span(0, 0)));
    FirstRowDeleted(x.base, x.rest);
  }

  lemma FinishInstalls(s: Log, e: Edit)
    requires Inv(s) && Enabled(s, FinishUpdate([e]))
    ensures var f := s.tracked.value.inFlight.value;
      && Within(e.before, f.base) && Within(e.after, f.snapshot)
      && Next(s, FinishUpdate([e])).tracked.value.unreviewed == [PointToRowEdit(e, f.base, f.snapshot)]
  {
    hide Inv, Takes, PointToRowEdit;
    var f := s.tracked.value.inFlight.value;
    RowPatchTakes([e], f.base, f.snapshot);
    assert [e][0] == e;
    assert RowEditsOf([e], f.base, f.snapshot)[1..] == [];
  }

  lemma FirstRowDeleted(s: string, t: string)
    requires |s| == 3 && s[0] != '\n' && s[1] == '\n' && |t| == 1
    ensures PointToRowEdit(Edit(Span(0, 2), Span(0, 0)), s, t) == Edit(Span(0, 1), Span(0, 0))
  {
    NextRow(s, 1);
    NoNewlines(s[..1]);
    assert Newlines(t[..0]) == 0 == Newlines(s[..0]);
    ColumnFacts(s, 0);
    ColumnFacts(s, 2);
    ColumnFacts(t, 0);
  }

  /** The agent deletes the first row, and the user the text after it. */
  function LostAnchorOps(): seq<Op> {
    var row := Edit(Span(0, 2), Span(0, 0));
    [BufferRead, AgentEdits([Splice(Span(0, 2), "")], {}), StartTracking([row]), FinishUpdate([row]),
     UserEdits([Splice(Span(0, 1), "")], {})]
  }

  lemma LostAnchorOpsAre()
    ensures var ops, row := LostAnchorOps(), Edit(Span(0, 2), Span(0, 0));
      && |ops| == 5 && ops[0] == BufferRead && ops[1] == AgentEdits([Splice(Span(0, 2), "")], {})
      && ops[2] == StartTracking([row]) && ops[3] == FinishUpdate([row]) && ops[4] == UserEdits([Splice(Span(0, 1), "")], {})
  {
  }

  lemma ExampleChanges(x: Example)
    requires IsExample(x)
    ensures ChangeOf(x.shown, 0, Splice(Span(0, 2), ""), false) == Change(0, 2, "")
    ensures ChangeOf(x.without, 1, Splice(Span(0, 1), ""), false) == Change(2, 3, "")
  {
    var d0, d1 := x.shown, x.without;
    assert d0[1..][1..] == [d0[2]] && d1[1..][1..] == [d1[2]] && d1[1..][1..][1..] == [];
    assert AfterChar(d0[1..][1..], 0, 0) == 0 && AfterChar(d0[1..], 0, 1) == 1 && AfterChar(d0, 0, 2) == 2;
    assert BeforeChar(d1[1..][1..], 1, 0) == 0 && BeforeChar(d1[1..], 1, 0) == 1 && BeforeChar(d1, 1, 0) == 2;
    assert AfterChar(d1[1..][1..], 1, 1) == 1 && AfterChar(d1[1..], 1, 1) == 2 && AfterChar(d1, 1, 1) == 3;
  }

  lemma RowGone(x: Example, d: Document)
    requires IsExample(x) && |d| == |x.shown|
    requires forall k | 0 <= k < |d| :: d[k] == Documents.Left(x.shown[k], 0 <= k < 2, 0)
    ensures d == x.without
  {
    assert d[0] == x.without[0] && d[1] == x.without[1] && d[2] == x.without[2];
  }

  lemma RestGone(x: Example, d: Document)
    requires IsExample(x) && |d| == |x.without|
    requires forall k | 0 <= k < |d| :: d[k] == Documents.Left(x.without[k], 2 <= k < 3, 1)
    ensures d == x.deleted
  {
    assert d[0] == x.deleted[0] && d[1] == x.deleted[1] && d[2] == x.deleted[2];
  }

  lemma RowIsDeleted(s: Log, x: Example) returns (r: Log)
    requires IsAt(s, x.base, 0, x.base, x.base, 0, [], None) && IsExample(x) && s.doc == x.shown
    ensures Inv(s) && Enabled(s, LostAnchorOps()[1]) && r == Next(s, LostAnchorOps()[1]) && Inv(r)
    ensures IsAt(r, x.rest, 1, x.base, x.base, 0, [Update(Agent, x.rest, 1)], None) && r.doc == x.without
  {
    hide Inv, Next, Enabled, IsAt, LostAnchorOps, ChangeOf, IsExample;
    var e, c := Splice(Span(0, 2), ""), Change(0, 2, "");
    var op := AgentEdits([e], {});
    LostAnchorOpsAre();
    IsAtInv(s, x.base, 0, x.base, x.base, 0, [], None);
    ExampleRows(x);
    ExampleChanges(x);
    AgentMakes(s, x.base, 0, x.base, x.base, 0, e, x.rest);
    DeletesCells(s, op, e, c);
    r := Next(s, op);
    RowGone(x, r.doc);
  }

  lemma TextIsDeleted(s: Log, x: Example) returns (r: Log)
    requires IsAt(s, x.rest, 1, x.base, x.rest, 1, [], None) && s.tracked.value.unreviewed == [Edit(Span(0, 1), Span(0, 0))]
    requires IsExample(x) && s.doc == x.without
    ensures Inv(s) && Enabled(s, LostAnchorOps()[4]) && r == Next(s, LostAnchorOps()[4]) && LostAnchor(r, x)
  {
    var e, c := Splice(Span(0, 1), ""), Change(2, 3, "");
    var op := UserEdits([e], {});
    LostAnchorOpsAre();
    hide Inv, Next, Enabled, LostAnchorOps, ChangeOf, IsExample;
    ExampleRows(x);
    ExampleChanges(x);
    UserMakes(s, x.rest, 1, x.base, x.rest, 1, e, "");
    DeletesCells(s, op, e, c);
    r := Next(s, op);
    RestGone(x, r.doc);
  }

  lemma LostAnchorReached(s: Log, x: Example) returns (r: Log)
    requires Initial(s) && s.buffer == x.base && s.version == 0 && IsExample(x) && s.doc == x.shown
    ensures Inv(s) && Runs(s, LostAnchorOps(), r) && LostAnchor(r, x)
  {
    hide Initial, Inv, Runs, Next, Enabled, IsAt, LostAnchorOps, LostAnchor, IsExample;
    var ops := LostAnchorOps();
    LostAnchorOpsAre();
    InitialInv(s);
    Reads(s);
    QuietStep(s, ops[0]);
    var s1 := Next(s, ops[0]);
    var s2 := RowIsDeleted(s1, x);
    r := LostAnchorRest(s2, x);
    OneMoreStep(s1, ops, 1, r);
    OneMoreStep(s, ops, 0, r);
    assert ops[0..] == ops;
  }

  lemma LostAnchorRest(s2: Log, x: Example) returns (r: Log)
    requires IsAt(s2, x.rest, 1, x.base, x.base, 0, [Update(Agent, x.rest, 1)], None) && IsExample(x) && s2.doc == x.without
    ensures Inv(s2) && Runs(s2, LostAnchorOps()[2..], r) && LostAnchor(r, x)
  {
    var ops, row := LostAnchorOps(), Edit(Span(0, 2), Span(0, 0));
    LostAnchorOpsAre();
    hide Initial, Inv, Runs, Next, Enabled, IsAt, LostAnchorOps, LostAnchor, Takes, IsExample;
    ExampleRows(x);
    AgentStarts(s2, x.rest, 1, x.base, x.base, 0, x.rest, 1, row);
    QuietStep(s2, ops[2]);
    var s3 := Next(s2, ops[2]);
    Finishes(s3, x.rest, 1, x.base, x.base, 0, [], InFlight(x.rest, 1, x.base), row);
    FirstRowUnderReview(s3, x);
    QuietStep(s3, ops[3]);
    var s4 := Next(s3, ops[3]);
    r := TextIsDeleted(s4, x);
    LostAnchorInv(r, x);
    NoMoreSteps(r, ops);
    OneMoreStep(s4, ops, 4, r);
    OneMoreStep(s3, ops, 3, r);
    OneMoreStep(s2, ops, 2, r);
  }

  lemma LostAnchorInv(s: Log, x: Example)
    requires LostAnchor(s, x)
    ensures Inv(s) && s.tracked.Some? && s.tracked.value.status.Modified? && s.buffer == ""
  {
  }

  /** A run after which undoing a reject does not restore the text: the row that rejecting puts back is still there. */
  lemma UndoDoesNotRestore(s: Log, x: Example) returns (r: Log)
    requires IsExample(x) && Initial(s) && s.buffer == x.base && s.version == 0 && s.doc == x.shown
    ensures Inv(s) && Runs(s, LostAnchorOps(), r) && Inv(r) && r.buffer == ""
    ensures var rejected := Next(r, RejectInRows([Span(0, 0)], {}));
      && rejected.buffer == x.row && Inv(rejected) && Next(rejected, UndoLastReject({})).buffer != r.buffer
  {
    r := LostAnchorReached(s, x);
    LostAnchorInv(r, x);
    hide Runs, Inv, Initial, LostAnchor, Next, Enabled, LostAnchorOps, IsExample;
    RejectLeaves(r, x);
  }

  lemma RejectLeaves(s: Log, x: Example)
    requires LostAnchor(s, x)
    ensures Inv(s) && Inv(Next(s, RejectInRows([Span(0, 0)], {}))) && s.buffer == ""
    ensures var r := Next(s, RejectInRows([Span(0, 0)], {})); r.buffer == x.row && Next(r, UndoLastReject({})).buffer != ""
  {
    hide Runs, Inv, LostAnchor, PutsInside, UndoReject, Reject;
    RejectPuts(s, x);
    LostAnchorInv(s, x);
    LostAnchorFails(s, x);
    var r := RejectRanges(s, [Span(0, 0)], {});
    RunOfNothing(r);
    UndoRestores(s, [Span(0, 0)], {}, [], r, {});
  }

  lemma RejectPuts(s: Log, x: Example)
    requires LostAnchor(s, x)
    ensures Inv(s) && Reject(s, [Span(0, 0)], {}).1.Some? && Inv(RejectRanges(s, [Span(0, 0)], {}))
    ensures RejectRanges(s, [Span(0, 0)], {}).buffer == x.row
  {
    hide Inv, LostAnchor, IsExample, Reverting, Remembered, Reject, InOrder, SpliceFrom, Coalesced, Next, RejectRanges;
    LostAnchorInv(s, x);
    LostAnchorReverts(s, x);
    LostAnchorRow(s, x);
    PutsIntoNothing(Splice(Span(0, 0), x.row));
    RejectGives(s, [Span(0, 0)], [Splice(Span(0, 0), x.row)]);
    StepKeepsInv(s, RejectInRows([Span(0, 0)], {}));
    NextRejects(s, [Span(0, 0)]);
  }

  lemma LostAnchorRow(s: Log, x: Example)
    requires LostAnchor(s, x)
    ensures x.row != ""
  {
  }

  lemma NextRejects(s: Log, ranges: seq<Span>)
    requires Inv(s)
    ensures Enabled(s, RejectInRows(ranges, {})) && Next(s, RejectInRows(ranges, {})) == RejectRanges(s, ranges, {})
  {
    hide Inv, Reject;
  }

  lemma RejectGives(s: Log, ranges: seq<Span>, edits: Splices)
    requires Inv(s) && s.tracked.Some? && s.tracked.value.status.Modified? && Reverting(s, ranges) == edits != []
    ensures InOrder(Coalesced(edits), s.buffer, 0) && Reject(s, ranges, {}).1.Some?
    ensures RejectRanges(s, ranges, {}).buffer == SpliceFrom(Coalesced(edits), s.buffer, 0)
  {
    hide Inv, Reverting, Remembered, Reject, Edited, InOrder, SpliceFrom, Coalesced, Carried;
    RejectModifiedIs(s, ranges, {});
    NoEditsNoChange(s, edits, {});
  }

  lemma PutsIntoNothing(e: Splice)
    requires e.range == Span(0, 0) && e.text != ""
    ensures InOrder([e], "", 0) && Coalesced([e]) == [e] && SpliceFrom([e], "", 0) == e.text
  {
    OneSplice(e, "");
    assert ""[..0] + e.text + ""[0..] == e.text;
  }

  lemma RunOfNothing(s: Log)
    requires Inv(s)
    ensures Runs(s, [], s)
  {
  }
}
