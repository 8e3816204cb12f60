/** Runs of the action log: what holds in every state that can be reached. */
module ActionLogRuns {
  import opened Options
  import opened LineText
  import opened Patches
  import opened RowPatches
  import opened RowEdits
  import opened Rebase
  import opened Review
  import opened Buffers
  import opened Documents
  import opened Anchors
  import opened Rejection
  import opened ActionLogs
  import T = Transport

  /** One step. Edits of the buffer and the events they cause are one step; processing a queued update takes two,
      and any other steps may come between them. */
  datatype Op =
    | BufferRead
    | BufferCreated(onDisk: bool)
    | UserEdits(edits: Splices, front: set<nat>)
    | AgentEdits(edits: Splices, front: set<nat>)
    | WillDeleteBuffer
    | FileChange(isDeleted: bool)
    | KeepInRows(rows: Span)
    | KeepAllEdits
    | RejectInRows(ranges: seq<Span>, front: set<nat>)
    | RejectAllEdits(hasEdits: bool, front: set<nat>)
    | UndoLastReject(front: set<nat>)
    | StartTracking(changes: Patch)
    | StartCommitted(committed: Patch, gitBase: string)
    | FinishUpdate(hunks: Patch)

  ghost predicate Enabled(s: Log, op: Op) {
    match op
    case UserEdits(edits, front) => InOrder(edits, s.buffer, 0) && 0 !in front
    case AgentEdits(edits, front) => InOrder(edits, s.buffer, 0) && 0 !in front
    case RejectInRows(ranges, front) => 0 !in front
    case RejectAllEdits(hasEdits, front) => 0 !in front
    case UndoLastReject(front) => 0 !in front
    case StartTracking(changes) => CanStart(s, changes)
    case StartCommitted(committed, gitBase) => CanCommit(s, committed)
    case FinishUpdate(hunks) => CanFinish(s, hunks)
    case _ => true
  }

  ghost function Next(s: Log, op: Op): Log
    requires Inv(s) && Enabled(s, op)
  {
    match op
    case BufferRead => Track(s, false, false)
    case BufferCreated(onDisk) => Track(s, true, onDisk)
    case UserEdits(edits, front) =>
      CoalescedInOrder(edits, s.buffer, 0);
      var r := Edited(s, edits, front);
      if r.version > s.version then HandleEdited(r) else r
    case AgentEdits(edits, front) =>
      CoalescedInOrder(edits, s.buffer, 0);
      HandleEdited(BufferEdited(Edited(s, edits, front)))
    case WillDeleteBuffer => WillDelete(s)
    case FileChange(isDeleted) => FileChanged(s, isDeleted)
    case KeepInRows(rows) => KeepRange(s, rows)
    case KeepAllEdits => KeepAll(s)
    case RejectInRows(ranges, front) => RejectRanges(s, ranges, front)
    case RejectAllEdits(hasEdits, front) => RejectAll(s, hasEdits, front)
    case UndoLastReject(front) => UndoReject(s, front)
    case StartTracking(changes) => StartUpdate(s, changes)
    case StartCommitted(committed, gitBase) => StartCommit(s, committed, gitBase)
    case FinishUpdate(hunks) => Finish(s, hunks)
  }

  // ----- every step keeps the invariant

  /** The invariant but for a buffer edit that the log has not been told of. */
  ghost predicate InvButEdited(s: Log) {
    && Anchored(s)
    && (s.tracked.Some? ==>
          var t := s.tracked.value;
          Reviewed(t) && Snapshots(t, s.doc, s.version) && t.version <= s.version)
  }

  lemma SnapshotsStay(t: Tracked, doc: Document, version: nat, changes: seq<Change>)
    requires Snapshots(t, doc, version)
    ensures Snapshots(t, Rewritten(doc, changes, version), version + 1)
  {
    hide Rewritten, TextAt;
    forall at | 0 <= at <= version ensures TextAt(Rewritten(doc, changes, version), at) == TextAt(doc, at) {
      OlderVersionsStay(doc, changes, version, at);
    }
  }

  lemma EditedKeeps(s: Log, edits: Splices, front: set<nat>)
    requires InvButEdited(s) && InOrder(edits, s.buffer, 0)
    ensures InOrder(Coalesced(edits), s.buffer, 0)
    ensures var r := Edited(s, edits, front);
      && InvButEdited(r) && r.tracked == s.tracked && s.version <= r.version
      && (r.version == s.version ==> r == s)
  {
    hide Reviewed, Rewritten, Coalesced, ChangesOf, TextAt, KnownBy, InOrder, SpliceFrom, Apart, MemosApart, CarryMemos, Snapshots;
    CoalescedInOrder(edits, s.buffer, 0);
    var made := Coalesced(edits);
    if made != [] {
      var changes := ChangesFor(s, edits, front);
      RewrittenKnown(s.doc, changes, s.version);
      RewrittenText(s.doc, s.version, made, front);
      if s.tracked.Some? {
        SnapshotsStay(s.tracked.value, s.doc, s.version, changes);
      }
      if s.undo.Some? {
        CarryKeepsApart(changes, s.undo.value, |s.doc|);
        RewrittenLength(s.doc, changes, s.version);
      }
    }
  }

  lemma ScheduleKeeps(s: Log, author: Author)
    requires InvButEdited(s) && s.tracked.Some?
    ensures Inv(Schedule(s, author))
  {
    hide Reviewed, TextAt, KnownBy;
    var was, now := s.tracked.value.queue, Schedule(s, author).tracked.value.queue;
    assert forall k | 0 <= k < |was| :: now[k] == was[k];
    assert now[|was|] == Update(author, s.buffer, s.version);
    ReviewedParts(s.tracked.value, Schedule(s, author).tracked.value);
  }

  lemma EventKeeps(s: Log, before: nat)
    requires InvButEdited(s) && (s.version == before ==> Inv(s)) && before <= s.version
    requires s.tracked.Some? ==> s.tracked.value.version <= before
    ensures Inv(if s.version > before then HandleEdited(s) else s)
  {
    hide Reviewed, TextAt, KnownBy;
    if s.version > before && s.tracked.Some? {
      ScheduleKeeps(s, User);
    }
  }

  lemma NewlyTracked(s: Log)
    ensures Takes([], Rows(s.buffer), Rows(s.buffer))
    ensures Takes([Edit(Span(0, 1), Span(0, |Rows(s.buffer)|))], Rows(""), Rows(s.buffer))
  {
    assert Rows("") == [""];
    var p := [Edit(Span(0, 1), Span(0, |Rows(s.buffer)|))];
    assert p[1..] == [];
    assert Rows("")[1..] == Rows(s.buffer)[|Rows(s.buffer)|..];
    assert TakesFrom([], Rows(""), Rows(s.buffer), 1, |Rows(s.buffer)|);
  }

  lemma TrackKeeps(s: Log, isCreated: bool, onDisk: bool)
    requires InvButEdited(s)
    ensures InvButEdited(Track(s, isCreated, onDisk))
    ensures Inv(s) || isCreated || s.tracked.None? ==> Inv(Track(s, isCreated, onDisk))
    ensures s.tracked.None? ==> Track(s, isCreated, onDisk).tracked.value.unreviewed == [] || isCreated
  {
    hide TextAt, KnownBy;
    NewlyTracked(s);
  }

  lemma BufferEditedKeeps(s: Log)
    requires InvButEdited(s)
    ensures Inv(BufferEdited(s))
  {
    TrackKeeps(s, false, false);
    hide Reviewed;
    var r := Track(s, false, false);
    var t := r.tracked.value;
    assert Reviewed(if t.status.Deleted? then t.(status := Modified) else t) by { ReviewedParts(t, t.(status := Modified)); }
    ScheduleKeeps(r.(tracked := Some(if t.status.Deleted? then t.(status := Modified) else t)), Agent);
  }

  lemma ReviewedParts(t: Tracked, t': Tracked)
    requires Reviewed(t) && t'.diffBase == t.diffBase && t'.unreviewed == t.unreviewed && t'.snapshot == t.snapshot
    ensures Reviewed(t')
  {
  }

  lemma WillDeleteKeeps(s: Log)
    requires Inv(s)
    ensures Inv(WillDelete(s))
  {
    TrackKeeps(s, false, false);
    hide Reviewed, TextAt, KnownBy, Coalesced, InOrder, SpliceFrom, SetText;
    var r := Track(s, false, false);
    var t := r.tracked.value;
    if t.status.Modified? {
      ReviewedParts(t, t.(status := Deleted));
      var d := r.(tracked := Some(t.(status := Deleted)));
      Clears(r.buffer);
      EditedKeeps(d, SetText(r.buffer, ""), {});
      ScheduleKeeps(Edited(d, SetText(r.buffer, ""), {}), Agent);
      var q := Schedule(Edited(d, SetText(r.buffer, ""), {}), Agent);
      if q.version > q.tracked.value.version {
        ScheduleKeeps(q, User);
      }
    }
  }

  lemma StartKeeps(s: Log, changes: Patch)
    requires Inv(s) && CanStart(s, changes)
    ensures Inv(StartUpdate(s, changes))
  {
    hide Takes, Rebased, RowsChanged;
    var t := s.tracked.value;
    if |t.queue| > 1 {
      assert t.queue[1..][|t.queue| - 2] == t.queue[|t.queue| - 1];
    }
  }

  lemma CommitKeeps(s: Log, committed: Patch, gitBase: string)
    requires Inv(s) && CanCommit(s, committed)
    ensures Inv(StartCommit(s, committed, gitBase))
  {
    hide Takes;
  }

  lemma FinishKeeps(s: Log, hunks: Patch)
    requires Inv(s) && CanFinish(s, hunks)
    ensures Inv(Finish(s, hunks))
  {
    var f := s.tracked.value.inFlight.value;
    RowPatchTakes(hunks, f.base, f.snapshot);
    hide Takes;
  }

  lemma AcceptedRows(t: Tracked, f: Edit -> bool)
    requires Reviewed(t)
    ensures Fits(Pick(t.unreviewed, f), Rows(t.diffBase), Rows(t.snapshot), 0)
    ensures Rows(Accepted(t, f)) == Apply(Pick(t.unreviewed, f), Rows(t.diffBase), Rows(t.snapshot))
  {
    hide TakesFrom, Rows, Separated, Fits, IsLineText, Leave, Pick, Remaining, AllEndAlike;
    var a, b := Rows(t.diffBase), Rows(t.snapshot);
    RowsAreLineText(t.diffBase);
    RowsAreLineText(t.snapshot);
    AcceptRows(t.unreviewed, f, a, b);
    assert [] + a[0..] == a;
    AppliesToLineText(Pick(t.unreviewed, f), a, b, [], 0);
    assert [] + ApplyFrom(Pick(t.unreviewed, f), a, b, 0) == Apply(Pick(t.unreviewed, f), a, b);
    RowsFlat(Apply(Pick(t.unreviewed, f), a, b));
  }

  lemma AcceptKeepsReviewed(t: Tracked, f: Edit -> bool)
    requires Reviewed(t)
    ensures Reviewed(t.(diffBase := Accepted(t, f), unreviewed := Leave(t.unreviewed, f, 0)))
  {
    hide TakesFrom, Rows, Separated, Fits, IsLineText, Leave, Pick, Remaining, Apply, Accepted;
    var a, b := Rows(t.diffBase), Rows(t.snapshot);
    RowsAreLineText(t.diffBase);
    RowsAreLineText(t.snapshot);
    AcceptRows(t.unreviewed, f, a, b);
    LeaveStartInside(t.unreviewed, f, 0, |b|);
    AcceptedRows(t, f);
  }

  lemma {:induction false} LeaveStartInside(p: Patch, f: Edit -> bool, d: int, n: int)
    requires StartInside(p, n)
    ensures StartInside(Leave(p, f, d), n)
  {
    if p != [] {
      LeaveStartInside(p[1..], f, if f(p[0]) then d + p[0].Growth() else d, n);
    }
  }

  lemma KeepKeeps(s: Log, rows: Span)
    requires Inv(s)
    ensures Inv(KeepRange(s, rows))
  {
    if s.tracked.Some? && !s.tracked.value.status.Deleted? {
      var t := s.tracked.value;
      AcceptKeepsReviewed(t, Touched(rows));
      hide Reviewed, Accepted;
      var left := Leave(t.unreviewed, Touched(rows), 0);
      var t' := t.(diffBase := Accepted(t, Touched(rows)), unreviewed := left);
      ReviewedParts(t', t'.(status := if left == [] && t.status.Created? then Modified else t.status));
      ScheduleKeeps(s.(tracked := Some(t'.(status := if left == [] && t.status.Created? then Modified else t.status))), User);
    }
  }

  lemma KeepAllKeeps(s: Log)
    requires Inv(s)
    ensures Inv(KeepAll(s))
  {
    hide TextAt, KnownBy, MemosApart, Rows;
    if s.tracked.Some? {
      assert Rows(s.tracked.value.snapshot)[0..] == Rows(s.tracked.value.snapshot);
    }
  }

  lemma RejectCreatedKeeps(s: Log, existing: string)
    requires Inv(s)
    ensures InOrder(Coalesced(SetText(s.buffer, "")), s.buffer, 0)
    ensures var cleared := Edited(s, SetText(s.buffer, ""), {});
      && InOrder(Coalesced(SetText(cleared.buffer, existing)), cleared.buffer, 0)
      && var r := Edited(cleared, SetText(cleared.buffer, existing), {});
         Inv(r.(tracked := None)) && r.buffer == existing && (s.undo.None? ==> r.undo.None?)
  {
    hide Reviewed, SetText, Coalesced, InOrder, SpliceFrom, TextAt, KnownBy, Snapshots, Rewritten, MemosApart;
    SetTextSets(s, "");
    EditedKeeps(s, SetText(s.buffer, ""), {});
    var cleared := Edited(s, SetText(s.buffer, ""), {});
    SetTextSets(cleared, existing);
    EditedKeeps(cleared, SetText(cleared.buffer, existing), {});
  }

  lemma HistoryShows(s: Log)
    requires Inv(s) && s.tracked.Some?
    ensures HistoryOf(s).Snapshot() == s.tracked.value.snapshot && HistoryOf(s).Text() == s.buffer
  {
  }

  /** What rejecting in a modified buffer does to it, and what it remembers. */
  lemma RejectModifiedIs(s: Log, ranges: seq<Span>, front: set<nat>)
    requires Inv(s) && s.tracked.Some? && s.tracked.value.status.Modified?
    ensures var (r, undo) := Reject(s, ranges, front);
      var edits := Reverting(s, ranges);
      && SameBuffer(r, Edited(s, edits, front))
      && r == (var e := Edited(s, edits, front); if e.version > s.version then HandleEdited(e) else e)
      && undo == if edits == [] then None else Some(Carried(s, edits, front, Remembered(s, ranges)))
  {
    hide Inv, Edited, Carried, Remembered, Reverting;
  }

  lemma RejectModifiedKeeps(s: Log, ranges: seq<Span>, front: set<nat>)
    requires Inv(s) && s.tracked.Some? && s.tracked.value.status.Modified?
    ensures var (r, undo) := Reject(s, ranges, front);
      Inv(r) && (undo.Some? ==> MemosApart(undo.value, |r.doc|)) && (s.undo.None? ==> r.undo.None?)
  {
    hide Reviewed, Reverting, Rejected, Reject, TextAt, KnownBy, Snapshots, Coalesced, InOrder, SpliceFrom, HunkMemos, MemosApart,
      Rewritten, Separated, SeparatedAfter, StartInside, Placed, CarryMemos, Remembers, Rows, ChangesOf;
    var edits := Reverting(s, ranges);
    HistoryShows(s);
    RejectModifiedIs(s, ranges, front);
    EditedKeeps(s, edits, front);
    EventKeeps(Edited(s, edits, front), s.version);
    MemosOfHunks(Rejected(s, ranges), HistoryOf(s));
    if Coalesced(edits) != [] {
      CarryKeepsApart(ChangesFor(s, edits, front), Remembered(s, ranges), |s.doc|);
      RewrittenLength(s.doc, ChangesFor(s, edits, front), s.version);
    }
  }

  lemma RejectKeeps(s: Log, ranges: seq<Span>, front: set<nat>)
    requires Inv(s)
    ensures var (r, undo) := Reject(s, ranges, front);
      Inv(r) && (undo.Some? ==> MemosApart(undo.value, |r.doc|)) && (s.undo.None? ==> r.undo.None?)
  {
    if s.tracked.Some? {
      var t := s.tracked.value;
      match t.status
      case Created(Some(existing)) =>
        hide Reviewed, Anchored, Snapshots, Coalesced, InOrder, SpliceFrom, SetText;
        RejectCreatedKeeps(s, existing);
      case Created(None) =>
      case Deleted =>
        hide Reviewed, TextAt, KnownBy, Snapshots, Coalesced, InOrder, SpliceFrom, MemosApart, Rewritten;
        Clears(s.buffer);
        EditedKeeps(s, SetText(s.buffer, t.diffBase), {});
        TrackKeeps(Edited(s, SetText(s.buffer, t.diffBase), {}).(tracked := None), false, false);
      case Modified => RejectModifiedKeeps(s, ranges, front);
    }
  }

  lemma SetTextSets(s: Log, text: string)
    ensures InOrder(SetText(s.buffer, text), s.buffer, 0) && InOrder(Coalesced(SetText(s.buffer, text)), s.buffer, 0)
    ensures Edited(s, SetText(s.buffer, text), {}).buffer == text
  {
    Clears(s.buffer);
    assert SetText(s.buffer, text)[1..] == [];
    var made := Coalesced(SetText(s.buffer, text));
    if made == [] {
      assert SpliceFrom(made, s.buffer, 0) == s.buffer[0..] == s.buffer;
    }
  }

  lemma NoEditsNoChange(s: Log, edits: Splices, front: set<nat>)
    requires InOrder(Coalesced(edits), s.buffer, 0)
    ensures Edited(s, edits, front).buffer == SpliceFrom(Coalesced(edits), s.buffer, 0)
  {
    if Coalesced(edits) == [] {
      assert s.buffer[0..] == s.buffer;
    }
  }

  lemma UndoKeeps(s: Log, front: set<nat>)
    requires Inv(s)
    ensures Inv(UndoReject(s, front))
  {
    hide Reviewed, TextAt, KnownBy, Snapshots, Coalesced, InOrder, SpliceFrom, MemosApart, Restoring, Rewritten;
    if s.undo.Some? {
      var s' := s.(undo := None);
      EditedKeeps(s', Restoring(s), front);
      var r := Edited(s', Restoring(s), front);
      if r.tracked.None? {
        BufferEditedKeeps(r);
      } else {
        EventKeeps(r, s.version);
      }
    }
  }

  lemma StepKeepsInv(s: Log, op: Op)
    requires Inv(s) && Enabled(s, op)
    ensures Inv(Next(s, op))
  {
    hide Reviewed, TextAt, KnownBy, Snapshots, Coalesced, InOrder, SpliceFrom, MemosApart, Rewritten;
    match op
    case BufferRead => TrackKeeps(s, false, false);
    case BufferCreated(onDisk) => TrackKeeps(s, true, onDisk);
    case UserEdits(edits, front) =>
      EditedKeeps(s, edits, front);
      EventKeeps(Edited(s, edits, front), s.version);
    case AgentEdits(edits, front) =>
      EditedKeeps(s, edits, front);
      BufferEditedKeeps(Edited(s, edits, front));
    case WillDeleteBuffer => WillDeleteKeeps(s);
    case FileChange(isDeleted) => TrackKeeps(s.(tracked := None), false, false);
    case KeepInRows(rows) => KeepKeeps(s, rows);
    case KeepAllEdits => KeepAllKeeps(s);
    case RejectInRows(ranges, front) => RejectKeeps(s, ranges, front);
    case RejectAllEdits(hasEdits, front) =>
      if s.tracked.Some? && hasEdits {
        RejectKeeps(s.(undo := None), [Span(0, |Rows(s.buffer)| - 1)], front);
      }
    case UndoLastReject(front) => UndoKeeps(s, front);
    case StartTracking(changes) => StartKeeps(s, changes);
    case StartCommitted(committed, gitBase) => CommitKeeps(s, committed, gitBase);
    case FinishUpdate(hunks) => FinishKeeps(s, hunks);
  }

  // ----- whole runs

  /** A buffer that nothing tracks yet. */
  predicate Initial(s: Log) {
    s.tracked.None? && s.undo.None? && Anchored(s)
  }

  lemma InitialInv(s: Log)
    requires Initial(s)
    ensures Inv(s) && s.tracked.None?
  {
  }

  /** Any text is that of some buffer nothing tracks yet. */
  lemma InitialBuffer(text: string)
    ensures var s := Log(text, Block(text, 0), 0, None, None); Initial(s) && Inv(s)
  {
    BlockText(text, 0, 0);
  }

  /** The steps `ops` lead from `s` to `t`. */
  ghost predicate Runs(s: Log, ops: seq<Op>, t: Log)
    requires Inv(s)
    decreases |ops|
  {
    if ops == [] then s == t
    else Enabled(s, ops[0]) && (StepKeepsInv(s, ops[0]); Runs(Next(s, ops[0]), ops[1..], t))
  }

  lemma {:induction false} RunKeepsInv(s: Log, ops: seq<Op>, t: Log)
    requires Inv(s) && Runs(s, ops, t)
    ensures Inv(t)
    decreases |ops|
  {
    if ops != [] {
      StepKeepsInv(s, ops[0]);
      RunKeepsInv(Next(s, ops[0]), ops[1..], t);
    }
  }

  predicate Drained(t: Tracked) {
    t.queue == [] && t.inFlight.None?
  }

  /** Over every run the unreviewed edits, applied to the base, give the snapshot; and once every queued update has been
      processed, the snapshot is the buffer. */
  lemma Reconstruction(s: Log, ops: seq<Op>, r: Log)
    requires Initial(s) && Runs(s, ops, r) && r.tracked.Some?
    ensures var t := r.tracked.value;
      && Fits(t.unreviewed, Rows(t.diffBase), Rows(t.snapshot), 0)
      && Flat(Apply(t.unreviewed, Rows(t.diffBase), Rows(t.snapshot))) == t.snapshot
      && Separated(t.unreviewed)
      && (Drained(t) ==> t.snapshot == r.buffer)
  {
    RunKeepsInv(s, ops, r);
    var t := r.tracked.value;
    TakesApplies(t.unreviewed, Rows(t.diffBase), Rows(t.snapshot), 0, 0);
    assert Rows(t.snapshot)[0..] == Rows(t.snapshot);
    FlatRows(t.snapshot);
  }

  /** The check of the repository's randomised test: in a drained state, replacing the hunks in the base one by one, each
      at the row where it starts in the buffer, gives the buffer. */
  method Quiesce(s: Log) returns (oldText: string)
    requires Inv(s) && s.tracked.Some? && Drained(s.tracked.value)
    ensures oldText == s.buffer
  {
    hide Rows, Separated, TakesFrom, Fits, Apply, ApplyFrom, Remaining, IsLineText, TextAt, KnownBy, MemosApart;
    var t, buffer := s.tracked.value, s.buffer;
    ghost var was, text := Rows(t.diffBase), Rows(buffer);
    QuiesceStarts(t);
    var rope := new Rope(t.diffBase);
    ghost var done: seq<string>, last, todo := [], 0, t.unreviewed;
    assert t.unreviewed[0..] == t.unreviewed && done + was[0..] == was;
    for k := 0 to |t.unreviewed|
      invariant fresh(rope)
      invariant todo == t.unreviewed[k..] && Remaining(todo, was, text, done, last, t.unreviewed)
      invariant 0 <= last <= |was| && Rows(rope.text) == done + was[last..]
      invariant TakesFrom(todo, was, text, last, |done|)
    {
      var edit := t.unreviewed[k];
      RemainingStep(todo, was, text, done, last, t.unreviewed);
      StartsWhereItIs(todo, was, text, last, |done|);
      ReplaceEdit(rope, edit.after.start, edit.after.start + edit.before.Len(), buffer, edit.after, edit, done, was, last);
      done, last, todo := done + was[last..edit.before.start] + Slice(text, edit.after), edit.before.end, todo[1..];
    }
    oldText := rope.text;
    QuiesceEnds(t, rope.text, done, last);
  }

  lemma QuiesceStarts(t: Tracked)
    requires Reviewed(t)
    ensures Remaining(t.unreviewed, Rows(t.diffBase), Rows(t.snapshot), [], 0, t.unreviewed)
    ensures TakesFrom(t.unreviewed, Rows(t.diffBase), Rows(t.snapshot), 0, 0)
  {
    RowsAreLineText(t.diffBase);
    RowsAreLineText(t.snapshot);
    TakesApplies(t.unreviewed, Rows(t.diffBase), Rows(t.snapshot), 0, 0);
    TakesEndsAlike(t.unreviewed, Rows(t.diffBase), Rows(t.snapshot), 0, 0);
  }

  /** What has been rebuilt so far is as long as the target up to there, so a hunk starts where it does in the target. */
  lemma StartsWhereItIs(todo: Patch, a: seq<string>, b: seq<string>, last: int, n: int)
    requires TakesFrom(todo, a, b, last, n) && todo != []
    ensures todo[0].before.start - last == todo[0].after.start - n
    ensures TakesFrom(todo[1..], a, b, todo[0].before.end, todo[0].after.end)
    ensures Within(todo[0].after, b)
  {
    assert |a[last..todo[0].before.start]| == |b[n..todo[0].after.start]|;
  }

  lemma QuiesceEnds(t: Tracked, text: string, done: seq<string>, last: int)
    requires Reviewed(t) && Remaining([], Rows(t.diffBase), Rows(t.snapshot), done, last, t.unreviewed)
    requires Rows(text) == done + Rows(t.diffBase)[last..]
    ensures text == t.snapshot
  {
    TakesApplies(t.unreviewed, Rows(t.diffBase), Rows(t.snapshot), 0, 0);
    assert Rows(t.snapshot)[0..] == Rows(t.snapshot);
    FlatRows(text);
    FlatRows(t.snapshot);
  }

  // ----- undo reverses reject

  /** Steps that neither edit the buffer nor replace what undoes the last reject. */
  predicate IsQuiet(op: Op) {
    || op.BufferRead? || op.BufferCreated? || op.FileChange? || op.KeepInRows? || op.KeepAllEdits?
    || op.StartTracking? || op.StartCommitted? || op.FinishUpdate?
  }

  predicate SameBuffer(s: Log, t: Log) {
    s.buffer == t.buffer && s.doc == t.doc && s.version == t.version
  }

  lemma QuietStep(s: Log, op: Op)
    requires Inv(s) && Enabled(s, op) && IsQuiet(op)
    ensures SameBuffer(Next(s, op), s) && Next(s, op).undo == s.undo
  {
    hide Reviewed, Takes, Anchored, Snapshots;
  }

  lemma {:induction false} QuietRun(s: Log, ops: seq<Op>, t: Log)
    requires Inv(s) && Runs(s, ops, t) && forall k | 0 <= k < |ops| :: IsQuiet(ops[k])
    ensures SameBuffer(t, s) && t.undo == s.undo
    decreases |ops|
  {
    hide Inv, Next, Enabled;
    if ops != [] {
      assert IsQuiet(ops[0]);
      StepKeepsInv(s, ops[0]);
      QuietStep(s, ops[0]);
      QuietRun(Next(s, ops[0]), ops[1..], t);
    }
  }

  /** Undoing makes the edits that restore what is remembered, and tells the log, which does not change the buffer. */
  lemma UndoMakesEdits(u: Log, front: set<nat>)
    requires Inv(u) && u.undo.Some?
    ensures UndoReject(u, front).buffer == SpliceFrom(Restoring(u), u.buffer, 0) && UndoReject(u, front).undo.None?
  {
    hide Reviewed, Anchored, Snapshots, Restoring, Coalesced, InOrder, SpliceFrom;
    NoEditsNoChange(u.(undo := None), Restoring(u), front);
    CoalescedInOrder(Restoring(u), u.buffer, 0);
  }

  /** What a reject of the ranges puts in goes between the anchors of hunks it reverts. */
  ghost predicate PutsInside(s: Log, ranges: seq<Span>, front: set<nat>)
    requires Inv(s) && s.tracked.Some?
  {
    AllInside(ChangesFor(s, Reverting(s, ranges), front), Remembered(s, ranges))
  }

  lemma RejectModifiedThenUndo(s: Log, ranges: seq<Span>, front: set<nat>, u: Log, front': set<nat>)
    requires Inv(s) && Inv(u) && s.tracked.Some? && s.tracked.value.status.Modified?
    requires var (r, undo) := Reject(s, ranges, front); undo.Some? && SameBuffer(u, r) && u.undo == undo
    ensures UndoReject(u, front').buffer == s.buffer <==> PutsInside(s, ranges, front)
  {
    hide Reviewed, Inv, Reverting, Remembered, TextAt, Coalesced, InOrder, SpliceFrom, MemosApart, Rewritten, CarryMemos, Remembers,
      ChangesFor, UndoReject, PutsInside, Resolve, Reject, Edited, Carried, Offset;
    var edits, memos := Reverting(s, ranges), Remembered(s, ranges);
    RejectModifiedIs(s, ranges, front);
    UndoMakesEdits(u, front');
    RestoringIs(u);
    EditedIs(s, edits, front, memos);
    if Coalesced(edits) == [] {
      NothingPutIn(s, ranges, front);
      NothingPutBack(s, ranges);
    } else {
      RejectPutsBack(s, ranges, front);
    }
  }

  lemma RestoringIs(u: Log)
    requires Inv(u) && u.undo.Some?
    ensures MemosApart(u.undo.value, |u.doc|) && Restoring(u) == Resolve(u.doc, u.version, u.undo.value)
    ensures TextAt(u.doc, u.version) == u.buffer
  {
  }

  lemma EditedIs(s: Log, edits: Splices, front: set<nat>, memos: seq<Memo>)
    requires InOrder(Coalesced(edits), s.buffer, 0)
    ensures var r, m := Edited(s, edits, front), Carried(s, edits, front, memos);
      if Coalesced(edits) == [] then r == s && m == memos
      else
        && r.doc == Rewritten(s.doc, ChangesFor(s, edits, front), s.version) && r.version == s.version + 1
        && r.buffer == SpliceFrom(Coalesced(edits), s.buffer, 0)
        && m == CarryMemos(ChangesFor(s, edits, front), memos)
  {
    hide Coalesced, SpliceFrom, InOrder, Rewritten, ChangesFor, CarryMemos;
  }

  /** Where nothing was changed, what is remembered is there already. */
  lemma NothingPutBack(s: Log, ranges: seq<Span>)
    requires Inv(s) && s.tracked.Some?
    ensures MemosApart(Remembered(s, ranges), |s.doc|)
    ensures var undo := Resolve(s.doc, s.version, Remembered(s, ranges));
      InOrder(undo, s.buffer, 0) && SpliceFrom(undo, s.buffer, 0) == s.buffer
  {
    hide Reviewed, Rejected, TextAt, KnownBy, Snapshots, InOrder, SpliceFrom, HunkMemos, MemosApart, Separated, SeparatedAfter,
      StartInside, Placed, Remembers, Rows, Resolve, Offset;
    HistoryShows(s);
    MemosOfHunks(Rejected(s, ranges), HistoryOf(s));
    PuttingBackNothing(s.doc, s.version, Remembered(s, ranges), 0);
    EdgeOffsets(s.doc, s.version);
    assert s.doc[0..] == s.doc;
  }

  lemma NothingPutIn(s: Log, ranges: seq<Span>, front: set<nat>)
    requires Inv(s) && s.tracked.Some? && Coalesced(Reverting(s, ranges)) == []
    ensures PutsInside(s, ranges, front)
  {
    hide Reverting, Remembered, Inv;
  }

  /** Putting back what is remembered of the hunks gives the buffer back exactly if the reverts went between their anchors. */
  lemma RejectPutsBack(s: Log, ranges: seq<Span>, front: set<nat>)
    requires Inv(s) && s.tracked.Some?
    ensures var changes, memos := ChangesFor(s, Reverting(s, ranges), front), Remembered(s, ranges);
      var d := Rewritten(s.doc, changes, s.version);
      && MemosApart(CarryMemos(changes, memos), |d|)
      && var undo := Resolve(d, s.version + 1, CarryMemos(changes, memos));
         && InOrder(undo, TextAt(d, s.version + 1), 0)
         && (SpliceFrom(undo, TextAt(d, s.version + 1), 0) == s.buffer <==> PutsInside(s, ranges, front))
  {
    hide Reviewed, Reverting, Rejected, TextAt, KnownBy, Snapshots, Coalesced, InOrder, SpliceFrom, HunkMemos, MemosApart, Rewritten,
      Separated, SeparatedAfter, StartInside, Placed, CarryMemos, Remembers, Rows, ChangesOf, Reverts, AllInside, GoneInside,
      Resolve, Apart, AllIn, ChangesApart;
    HistoryShows(s);
    ChosenFit(s, ranges, front);
    PuttingBackExact(s.doc, s.version, ChangesFor(s, Reverting(s, ranges), front), Remembered(s, ranges));
  }

  lemma ChosenFit(s: Log, ranges: seq<Span>, front: set<nat>)
    requires Inv(s) && s.tracked.Some?
    ensures var changes, memos := ChangesFor(s, Reverting(s, ranges), front), Remembered(s, ranges);
      && ChangesApart(changes, |s.doc|) && MemosApart(memos, |s.doc|)
      && Remembers(memos, s.doc, s.version) && GoneInside(s.doc, changes, s.version, memos, 0)
  {
    var t, h, chosen, edits := s.tracked.value, HistoryOf(s), Rejected(s, ranges), Reverting(s, ranges);
    hide Reviewed, Reverting, Rejected, TextAt, KnownBy, Snapshots, Coalesced, InOrder, SpliceFrom, HunkMemos, MemosApart,
      Separated, SeparatedAfter, StartInside, Placed, Remembers, Rows, ChangesOf, Reverts, GoneInside, Apart, AllIn, ChangesApart;
    HistoryShows(s);
    RevertingIs(s, ranges);
    MemosOfHunks(chosen, h);
    RevertsGoInside(chosen, t.diffBase, h, front);
    CoalescedInOrder(edits, s.buffer, 0);
    InOrderWithin(Coalesced(edits), s.buffer, 0);
    ChangesAreApart(s.doc, s.version, Coalesced(edits), front, 0);
  }

  lemma RevertingIs(s: Log, ranges: seq<Span>)
    requires Inv(s) && s.tracked.Some?
    ensures Reverting(s, ranges) == Reverts(Rejected(s, ranges), s.tracked.value.diffBase, HistoryOf(s))
  {
  }

  lemma RejectCreatedThenUndo(s: Log, ranges: seq<Span>, front: set<nat>, u: Log, front': set<nat>)
    requires Inv(s) && Inv(u)
    requires s.tracked.Some? && s.tracked.value.status.Created? && s.tracked.value.status.existing.Some?
    requires var (r, undo) := Reject(s, ranges, front); SameBuffer(u, r) && u.undo == undo
    ensures UndoReject(u, front').buffer == s.buffer
  {
    hide Reviewed, InOrder, SpliceFrom, TextAt, KnownBy, Snapshots, Coalesced, Rewritten;
    Clears(s.buffer);
    Clears(Edited(s, SetText(s.buffer, ""), {}).buffer);
    UndoMakesEdits(u, front');
    EdgeOffsets(u.doc, u.version);
    assert u.undo.value == [Memo(0, |u.doc|, s.buffer)] && u.undo.value[1..] == [];
    assert Restoring(u) == SetText(u.buffer, s.buffer);
    Clears(u.buffer);
    CoalescedInOrder(SetText(u.buffer, s.buffer), u.buffer, 0);
  }

  /** Undoing a reject restores the text of a created buffer, and that of a modified one exactly if what was put in for the
      hunks went between their anchors. */
  lemma RejectThenUndo(s: Log, ranges: seq<Span>, front: set<nat>, u: Log, front': set<nat>)
    requires Inv(s) && Inv(u)
    requires var (r, undo) := Reject(s, ranges, front); undo.Some? && SameBuffer(u, r) && u.undo == undo
    ensures UndoReject(u, front').buffer == s.buffer <==>
      s.tracked.value.status.Created? || PutsInside(s, ranges, front)
  {
    hide Inv, UndoReject, Reverting;
    if s.tracked.value.status.Modified? {
      RejectModifiedThenUndo(s, ranges, front, u, front');
    } else {
      RejectCreatedThenUndo(s, ranges, front, u, front');
    }
  }

  lemma {:induction false} UndoAfterRun(s: Log, ranges: seq<Span>, front: set<nat>, r: Log, ops: seq<Op>, u: Log, front': set<nat>)
    requires Inv(s) && Reject(s, ranges, front).1.Some?
    requires Inv(r) && SameBuffer(r, Reject(s, ranges, front).0) && r.undo == Reject(s, ranges, front).1
    requires Runs(r, ops, u) && forall k | 0 <= k < |ops| :: IsQuiet(ops[k])
    ensures Inv(u)
    ensures UndoReject(u, front').buffer == s.buffer <==> s.tracked.value.status.Created? || PutsInside(s, ranges, front)
  {
    hide Reject, Inv, UndoReject, Runs, PutsInside;
    RunKeepsInv(r, ops, u);
    QuietRun(r, ops, u);
    RejectThenUndo(s, ranges, front, u, front');
  }

  /** Undo reverses reject, over a run: whatever was rejected (in rows of a modified buffer, or in a created buffer with
      prior content), and whatever the log does before the undo short of editing the buffer, undoing restores the text
      there was, in a modified buffer exactly if what was put in went between the anchors of hunks reverted. */
  lemma UndoRestores(s: Log, ranges: seq<Span>, front: set<nat>, ops: seq<Op>, u: Log, front': set<nat>)
    requires Inv(s) && Enabled(s, RejectInRows(ranges, front)) && Reject(s, ranges, front).1.Some?
    requires Inv(RejectRanges(s, ranges, front)) && Runs(RejectRanges(s, ranges, front), ops, u)
    requires (forall k | 0 <= k < |ops| :: IsQuiet(ops[k])) && 0 !in front'
    ensures Inv(u)
    ensures Next(u, UndoLastReject(front')).buffer == s.buffer <==>
      s.tracked.value.status.Created? || PutsInside(s, ranges, front)
  {
    hide Reject, Inv, UndoReject, Runs, PutsInside;
    UndoAfterRun(s, ranges, front, RejectRanges(s, ranges, front), ops, u, front');
  }

  /** The same for rejecting everything. */
  lemma {:induction false} UndoRestoresAll(s: Log, front: set<nat>, ops: seq<Op>, u: Log, front': set<nat>)
    requires Inv(s) && Enabled(s, RejectAllEdits(true, front)) && s.tracked.Some? && RejectAll(s, true, front).undo.Some?
    requires Inv(RejectAll(s, true, front)) && Runs(RejectAll(s, true, front), ops, u)
    requires (forall k | 0 <= k < |ops| :: IsQuiet(ops[k])) && 0 !in front'
    ensures Inv(u)
    ensures Next(u, UndoLastReject(front')).buffer == s.buffer <==>
      s.tracked.value.status.Created? || PutsInside(s, [Span(0, |Rows(s.buffer)| - 1)], front)
  {
    hide Reject, RejectAll, Inv, UndoReject, Runs, PutsInside, Rows;
    var ranges := [Span(0, |Rows(s.buffer)| - 1)];
    RejectAllIs(s, front);
    WithoutUndo(s, ranges, front);
    UndoAfterRun(s.(undo := None), ranges, front, RejectAll(s, true, front), ops, u, front');
  }

  lemma RejectAllIs(s: Log, front: set<nat>)
    requires Inv(s) && s.tracked.Some?
    ensures Inv(s.(undo := None))
    ensures var (r, undo) := Reject(s.(undo := None), [Span(0, |Rows(s.buffer)| - 1)], front);
      RejectAll(s, true, front) == r.(undo := undo)
  {
    hide Reviewed, TextAt, KnownBy, Snapshots, Reject, Rows;
  }

  lemma WithoutUndo(s: Log, ranges: seq<Span>, front: set<nat>)
    requires Inv(s) && s.tracked.Some?
    ensures Inv(s.(undo := None)) && PutsInside(s.(undo := None), ranges, front) == PutsInside(s, ranges, front)
  {
    hide Reviewed, TextAt, KnownBy, Snapshots, HunkRows, Choose, Selected, Reverts, HunkMemos, AllInside, ChangesOf;
  }

  /** Undo restores the text where the characters around the hunks rejected are still shown. */
  lemma RestoresWhereShown(s: Log, ranges: seq<Span>, front: set<nat>)
    requires Inv(s) && s.tracked.Some? && AnchorsShown(Remembered(s, ranges), s.doc, s.version)
    ensures PutsInside(s, ranges, front)
  {
    hide Reviewed, Reverting, Rejected, TextAt, KnownBy, Snapshots, Coalesced, InOrder, SpliceFrom, HunkMemos, Reverts, AllInside,
      ChangesOf, AnchorsShown;
    RevertingIs(s, ranges);
    RevertsPutInside(Rejected(s, ranges), s.tracked.value.diffBase, HistoryOf(s), front);
  }

  /** In particular it does if nothing of the snapshot has been deleted since. */
  lemma RestoresUnlessDeleted(s: Log, ranges: seq<Span>, front: set<nat>)
    requires Inv(s) && s.tracked.Some? && NothingDeleted(HistoryOf(s))
    ensures PutsInside(s, ranges, front)
  {
    hide Reviewed, Rejected, PutsInside, Anchored, Snapshots, AnchorsShown, NothingDeleted, HunkMemos;
    HunksShown(Rejected(s, ranges), HistoryOf(s));
    RestoresWhereShown(s, ranges, front);
  }

  // ----- rejecting everything

  lemma {:induction false} ChooseAll(p: Patch, flags: seq<bool>)
    requires |p| == |flags| && forall k | 0 <= k < |p| :: flags[k]
    ensures Choose(p, flags) == p
  {
    if p != [] {
      ChooseAll(p[1..], flags[1..]);
      assert p == [p[0]] + p[1..];
    }
  }

  /** Where the buffer shows the characters of the snapshot, rejecting everything gives the base back. */
  lemma RejectAllGivesBase(s: Log, front: set<nat>)
    requires Inv(s) && s.tracked.Some? && s.tracked.value.status.Modified? && HistoryOf(s).Unchanged()
    ensures RejectAll(s, true, front).buffer == s.tracked.value.diffBase
  {
    hide SpliceFrom, InOrder, Choose, Selected, Reverts, HunkRows, Apply, TextAt, KnownBy, SameShown, Rows, MemosApart, Coalesced,
      Separated, TakesFrom, StartInside, Placed, SortedByStart, Touches;
    var s0 := s.(undo := None);
    var t, h, ranges := s.tracked.value, HistoryOf(s), [Span(0, |Rows(s.buffer)| - 1)];
    AllRejected(s0);
    SameText(h.doc, h.was, h.now);
    RejectAllRestoresBase(t.unreviewed, t.diffBase, h);
    RevertingIs(s0, ranges);
    NoEditsNoChange(s0, Reverting(s0, ranges), front);
  }

  lemma AllRejected(s: Log)
    requires Inv(s) && s.tracked.Some? && HistoryOf(s).Unchanged()
    ensures Rejected(s, [Span(0, |Rows(s.buffer)| - 1)]) == s.tracked.value.unreviewed
  {
    hide Choose, Selected, HunkRows, TextAt, KnownBy, SameShown, MemosApart;
    var t, h, ranges := s.tracked.value, HistoryOf(s), [Span(0, |Rows(s.buffer)| - 1)];
    TakesProper(t.unreviewed, Rows(t.diffBase), Rows(t.snapshot), 0, 0);
    SameText(h.doc, h.was, h.now);
    var rows := HunkRows(t.unreviewed, h);
    RowsAscend(t.unreviewed, h);
    forall k | 0 <= k < |t.unreviewed| ensures Selected(ranges, rows)[k] {
      HunkRowsAt(t.unreviewed, h, k);
      SelectionExact(ranges, rows, k);
      assert Touches(ranges[0], rows[k]);
    }
    ChooseAll(t.unreviewed, Selected(ranges, rows));
  }

  lemma RowsAscend(p: Patch, h: History)
    requires Placed(p) && Separated(p) && StartInside(p, |Rows(h.Snapshot())|) && h.Unchanged()
    requires forall m | 0 <= m < |p| :: p[m].after.end <= |Rows(h.Snapshot())|
    ensures SortedByStart(HunkRows(p, h))
  {
    hide TextAt, SameShown, HunkRows, Rows;
    var rows := HunkRows(p, h);
    forall k, m | 0 <= k < m < |rows| ensures rows[k].start <= rows[m].start {
      HunkRowsAt(p, h, k);
      HunkRowsAt(p, h, m);
      assert p[k].after.end < p[m].after.start;
    }
  }

  // ----- what the agent does stays under review

  predicate IsAgents(op: Op) {
    op.AgentEdits? || op.StartTracking? || op.FinishUpdate?
  }

  /** Only the agent's snapshots are waiting, and the update in flight leaves the base alone. */
  predicate OnlyAgentsWork(s: Log, base: string) {
    && s.tracked.Some? && s.tracked.value.diffBase == base && s.tracked.value.status.Modified?
    && (forall k | 0 <= k < |s.tracked.value.queue| :: s.tracked.value.queue[k].author.Agent?)
    && (s.tracked.value.inFlight.Some? ==> s.tracked.value.inFlight.value.base == base)
  }

  lemma AgentStep(s: Log, op: Op, base: string)
    requires Inv(s) && Enabled(s, op) && OnlyAgentsWork(s, base) && IsAgents(op)
    ensures OnlyAgentsWork(Next(s, op), base)
  {
    hide Reviewed, Takes, Coalesced, CoalesceAll, Rebased, InOrder, SpliceFrom, TextAt, KnownBy, Snapshots, Rewritten, MemosApart;
  }

  lemma {:induction false} AgentRun(s: Log, ops: seq<Op>, t: Log, base: string)
    requires Inv(s) && Runs(s, ops, t) && OnlyAgentsWork(s, base) && forall k | 0 <= k < |ops| :: IsAgents(ops[k])
    ensures OnlyAgentsWork(t, base)
    decreases |ops|
  {
    if ops != [] {
      assert IsAgents(ops[0]);
      StepKeepsInv(s, ops[0]);
      AgentStep(s, ops[0], base);
      hide Inv, Next, Enabled, OnlyAgentsWork;
      AgentRun(Next(s, ops[0]), ops[1..], t, base);
    }
  }

  /** Nothing the agent does is accepted by itself: after any number of agent edits, with their updates processed in any
      interleaving, rejecting everything gives back the text the buffer was tracked with. */
  lemma RejectingUndoesTheAgent(s: Log, ops: seq<Op>, r: Log)
    requires Initial(s) && Inv(Track(s, false, false)) && Runs(Track(s, false, false), ops, r)
    requires forall k | 0 <= k < |ops| :: IsAgents(ops[k])
    ensures Inv(r) && r.tracked.Some?
    ensures Drained(r.tracked.value) ==> forall front :: RejectAll(r, true, front).buffer == s.buffer
  {
    var s' := Track(s, false, false);
    RunKeepsInv(s', ops, r);
    AgentRun(s', ops, r, s.buffer);
    if Drained(r.tracked.value) {
      forall front ensures RejectAll(r, true, front).buffer == s.buffer {
        RejectAllGivesBase(r, front);
      }
    }
  }

  /** Rejecting a created buffer that had content gives the content back, and one that was deleted gets its base text;
      nothing stays under review. */
  lemma RejectRestoresContent(s: Log, ranges: seq<Span>, front: set<nat>)
    requires Inv(s) && s.tracked.Some?
    ensures s.tracked.value.status.Created? && s.tracked.value.status.existing.Some? ==>
      var r := Reject(s, ranges, front).0; r.buffer == s.tracked.value.status.existing.value && r.tracked.None?
    ensures s.tracked.value.status.Deleted? ==>
      var r, base := Reject(s, ranges, front).0, s.tracked.value.diffBase;
      r.buffer == base && r.tracked == Some(Tracked(base, [], base, r.version, Modified, r.version, [], None))
  {
    hide Reviewed, Reverting, InOrder, SpliceFrom, Coalesced, TextAt, KnownBy, Snapshots, Rewritten;
    var t := s.tracked.value;
    match t.status
    case Created(Some(existing)) =>
      SetTextSets(s, "");
      SetTextSets(Edited(s, SetText(s.buffer, ""), {}), existing);
    case Deleted => SetTextSets(s, t.diffBase);
    case _ =>
  }

  predicate IsCreated(s: Log, existing: Option<string>) {
    s.tracked.Some? && s.tracked.value.status == Created(existing)
  }

  /** Steps that neither review anything nor delete the buffer. */
  predicate IsEditing(op: Op) {
    || op.BufferRead? || op.BufferCreated? || op.UserEdits? || op.AgentEdits?
    || op.StartTracking? || op.StartCommitted? || op.FinishUpdate?
  }

  lemma {:induction false} CreatedRun(s: Log, ops: seq<Op>, t: Log, existing: Option<string>)
    requires Inv(s) && Runs(s, ops, t) && IsCreated(s, existing) && forall k | 0 <= k < |ops| :: IsEditing(ops[k])
    ensures IsCreated(t, existing)
    decreases |ops|
  {
    if ops != [] {
      assert IsEditing(ops[0]);
      StepKeepsInv(s, ops[0]);
      CreatedStep(s, ops[0], existing);
      hide Inv, Next, Enabled, IsCreated;
      CreatedRun(Next(s, ops[0]), ops[1..], t, existing);
    }
  }

  lemma CreatedStep(s: Log, op: Op, existing: Option<string>)
    requires Inv(s) && Enabled(s, op) && IsCreated(s, existing) && IsEditing(op)
    ensures IsCreated(Next(s, op), existing)
  {
    hide Reviewed, Takes, Coalesced, CoalesceAll, Rebased, InOrder, SpliceFrom, Accepted, TextAt, KnownBy, Snapshots, Rewritten,
      MemosApart;
  }

  /** A file that the agent overwrites gets its content back: whatever the agent and the user make of it, even creating it
      again, with updates processed in any interleaving, rejecting gives the text that was there before. For a buffer under
      review that is the text accepted so far. */
  lemma RejectingUndoesCreation(s: Log, ops: seq<Op>, r: Log, ranges: seq<Span>, front: set<nat>)
    requires Inv(s) && (s.tracked.Some? ==> !s.tracked.value.status.Created?)
    requires Inv(Track(s, true, true)) && Runs(Track(s, true, true), ops, r)
    requires forall k | 0 <= k < |ops| :: IsEditing(ops[k])
    ensures Inv(r)
    ensures Reject(r, ranges, front).0.buffer == if s.tracked.Some? then s.tracked.value.diffBase else s.buffer
  {
    var content := if s.tracked.Some? then s.tracked.value.diffBase else s.buffer;
    RunKeepsInv(Track(s, true, true), ops, r);
    CreatedRun(Track(s, true, true), ops, r, Some(content));
    hide Inv, Reject, Runs;
    RejectRestoresContent(r, ranges, front);
  }

  /** A buffer that the agent deletes is emptied; rejecting that gives back the text accepted so far. */
  lemma RejectingUndoesDeletion(s: Log, ranges: seq<Span>, front: set<nat>)
    requires Inv(s) && (s.tracked.Some? ==> s.tracked.value.status.Modified?)
    ensures Inv(WillDelete(s)) && WillDelete(s).buffer == ""
    ensures Reject(WillDelete(s), ranges, front).0.buffer == if s.tracked.Some? then s.tracked.value.diffBase else s.buffer
  {
    WillDeleteKeeps(s);
    WillDeleteIs(s);
    hide Inv, Reject, WillDelete;
    RejectRestoresContent(WillDelete(s), ranges, front);
  }

  lemma WillDeleteIs(s: Log)
    requires s.tracked.Some? ==> s.tracked.value.status.Modified?
    ensures var r := WillDelete(s);
      && r.buffer == "" && r.tracked.Some? && r.tracked.value.status.Deleted?
      && r.tracked.value.diffBase == if s.tracked.Some? then s.tracked.value.diffBase else s.buffer
  {
    hide InOrder, SpliceFrom, Coalesced, Rewritten, SetText, Rows, Carried;
    var r := Track(s, false, false);
    SetTextSets(r.(tracked := Some(r.tracked.value.(status := Deleted))), "");
  }

  // ----- keeping before rejecting

  /** What has been kept is not rejected: after keeping some rows, rejecting everything leaves the base with exactly the
      kept hunks applied. */
  lemma KeptHunksAreNotRejected(s: Log, rows: Span, front: set<nat>)
    requires Inv(s) && s.tracked.Some? && s.tracked.value.status.Modified? && HistoryOf(s).Unchanged()
    ensures var t, r := s.tracked.value, KeepRange(s, rows);
      && Inv(r)
      && Fits(Pick(t.unreviewed, Touched(rows)), Rows(t.diffBase), Rows(t.snapshot), 0)
      && Rows(RejectAll(r, true, front).buffer) == Apply(Pick(t.unreviewed, Touched(rows)), Rows(t.diffBase), Rows(t.snapshot))
  {
    KeepKeeps(s, rows);
    RejectAllGivesBase(KeepRange(s, rows), front);
    AcceptedRows(s.tracked.value, Touched(rows));
  }

  /** After keeping everything there is nothing left to reject, in created buffers either. */
  lemma NothingToRejectAfterKeepingAll(s: Log, ranges: seq<Span>, front: set<nat>)
    requires Inv(s) && s.tracked.Some? && !s.tracked.value.status.Deleted?
    ensures Inv(KeepAll(s)) && Reject(KeepAll(s), ranges, front) == (KeepAll(s), None)
  {
    KeepAllKeeps(s);
    hide SpliceFrom, InOrder, TextAt, KnownBy, Reviewed, Snapshots, MemosApart;
    NothingRejected(KeepAll(s), ranges);
  }

  lemma NothingRejected(s: Log, ranges: seq<Span>)
    requires Inv(s) && s.tracked.Some? && s.tracked.value.unreviewed == []
    ensures Reverting(s, ranges) == [] && Coalesced([]) == []
  {
    hide SpliceFrom, InOrder, TextAt, KnownBy, Snapshots, MemosApart;
    assert Choose([], Selected(ranges, HunkRows([], HistoryOf(s)))) == [];
  }

  // ----- what a user update does to the hunks under review

  lemma UserUpdateBase(s: Log, changes: Patch)
    requires Inv(s) && CanStart(s, changes) && s.tracked.value.queue[0].author.User?
    ensures var t, f := s.tracked.value, StartUpdate(s, changes).tracked.value.inFlight.value;
      var todo := InBase(t.unreviewed, RowsChanged(s, changes));
      && Fits(todo, Rows(t.diffBase), Rows(f.snapshot), 0)
      && Rows(f.base) == Apply(todo, Rows(t.diffBase), Rows(f.snapshot))
      && Transported(t.unreviewed, RowsChanged(s, changes), 0) == todo
  {
    var t := s.tracked.value;
    var a, b, c := Rows(t.diffBase), Rows(t.snapshot), Rows(t.queue[0].text);
    var rows := RowsChanged(s, changes);
    var todo := Transported(t.unreviewed, rows, 0);
    RowPatchTakes(changes, t.snapshot, t.queue[0].text);
    RowsAreLineText(t.diffBase);
    RowsAreLineText(t.snapshot);
    RowsAreLineText(t.queue[0].text);
    hide RowsChanged, Rows, Separated, Transported, InBase;
    MergeStarts(t.unreviewed, rows, a, b, c);
    TransportedInRows(t.unreviewed, rows);
    assert [] + a[0..] == a;
    AppliesToLineText(todo, a, c, [], 0);
    assert [] + ApplyFrom(todo, a, c, 0) == Apply(todo, a, c);
    RowsFlat(Apply(todo, a, c));
  }

  /** The base a user update computes has the rows the merge gives it, and the hunks under review are carried over to it
      as the transport theorem says. */
  lemma UserUpdateCarriesHunks(s: Log, changes: Patch)
    requires Inv(s) && CanStart(s, changes) && s.tracked.value.queue[0].author.User?
    ensures var t, f := s.tracked.value, StartUpdate(s, changes).tracked.value.inFlight.value;
      var rows := RowsChanged(s, changes);
      var rs := T.RebasedPatch(t.unreviewed, rows, 0, 0);
      && Takes(T.PatchOf(rs), Rows(f.base), Rows(f.snapshot))
      && T.HunksOf(rs) == t.unreviewed && T.EditsOf(rs) == Blocked(t.unreviewed, rows)
      && T.AllWidened(rs, Rows(t.diffBase), Rows(t.snapshot), Rows(f.snapshot), Rows(f.base))
  {
    var t := s.tracked.value;
    RowPatchTakes(changes, t.snapshot, t.queue[0].text);
    UserUpdateBase(s, changes);
    hide RowsChanged, Rows, Separated, Transported, InBase, T.RebasedPatch, T.Widened;
    T.TransportTheorem(t.unreviewed, RowsChanged(s, changes), Rows(t.diffBase), Rows(t.snapshot), Rows(t.queue[0].text));
  }

  /** A user update that takes out no row of a hunk and puts none in between its rows, and does not touch a hunk without rows,
      is accepted whole: the base gets all of its row edits, moved by the growth of the hunks before them, and every hunk
      keeps its base rows and its new rows. */
  lemma EditsBesideHunksAreAccepted(s: Log, changes: Patch)
    requires Inv(s) && CanStart(s, changes) && s.tracked.value.queue[0].author.User?
    requires forall m | 0 <= m < |RowsChanged(s, changes)| :: !MeetsAny(s.tracked.value.unreviewed, RowsChanged(s, changes)[m])
    ensures var t, f := s.tracked.value, StartUpdate(s, changes).tracked.value.inFlight.value;
      var rows, todo := RowsChanged(s, changes), InBase(t.unreviewed, RowsChanged(s, changes));
      && Fits(todo, Rows(t.diffBase), Rows(f.snapshot), 0)
      && Rows(f.base) == Apply(todo, Rows(t.diffBase), Rows(f.snapshot)) && |todo| == |rows|
      && (forall m | 0 <= m < |rows| ::
            todo[m] == Edit(rows[m].before.Shift(-GrowthBefore(t.unreviewed, rows[m])), rows[m].after))
      && var hunks := T.PatchOf(T.RebasedPatch(t.unreviewed, rows, 0, 0));
         && Takes(hunks, Rows(f.base), Rows(f.snapshot))
         && T.KeepRows(t.unreviewed, hunks, Rows(t.diffBase), Rows(t.snapshot), Rows(f.base), Rows(f.snapshot))
  {
    hide Rows, Separated, Transported, InBase, T.RebasedPatch, T.PatchOf, TakesFrom, Free, MeetsAny, Apply, Fits, T.KeepRows, Proper;
    var t, rows := s.tracked.value, RowsChanged(s, changes);
    RowPatchTakes(changes, t.snapshot, t.queue[0].text);
    UserUpdateBase(s, changes);
    AllInBase(t.unreviewed, rows);
    hide RowsChanged;
    TakesProper(t.unreviewed, Rows(t.diffBase), Rows(t.snapshot), 0, 0);
    TakesProper(rows, Rows(t.snapshot), Rows(t.queue[0].text), 0, 0);
    MeetsInRows(t.unreviewed, rows);
    T.NoConflictsKeepHunks(t.unreviewed, rows, Rows(t.diffBase), Rows(t.snapshot), Rows(t.queue[0].text));
  }

  /** With nothing under review, a user update makes the base the user's text. */
  lemma UserEditsAreAccepted(s: Log, changes: Patch)
    requires Inv(s) && CanStart(s, changes) && s.tracked.value.queue[0].author.User?
    requires s.tracked.value.unreviewed == []
    ensures StartUpdate(s, changes).tracked.value.inFlight.value.base == s.tracked.value.queue[0].text
  {
    var t := s.tracked.value;
    UserUpdateCarriesHunks(s, changes);
    var f := StartUpdate(s, changes).tracked.value.inFlight.value;
    var rs := T.RebasedPatch(t.unreviewed, RowsChanged(s, changes), 0, 0);
    assert rs == [] && T.PatchOf(rs) == [];
    assert Rows(f.base)[0..] == Rows(f.base) && Rows(f.snapshot)[0..] == Rows(f.snapshot);
    FlatRows(f.base);
    FlatRows(f.snapshot);
  }

  /** A user update that changes nothing leaves the base alone: the update that the log attributes to the user when the
      agent deletes a buffer, after that of the agent with the same text, does no harm. */
  lemma UnchangedTextKeepsBase(s: Log)
    requires Inv(s) && s.tracked.Some? && s.tracked.value.inFlight.None? && s.tracked.value.queue != []
    requires s.tracked.value.queue[0].text == s.tracked.value.snapshot
    ensures CanStart(s, []) && StartUpdate(s, []).tracked.value.inFlight.value.base == s.tracked.value.diffBase
  {
    var t := s.tracked.value;
    assert t.snapshot[0..] == t.queue[0].text[0..];
    if t.queue[0].author.User? {
      assert Transported(t.unreviewed, [], 0) == [];
      assert Rows(t.diffBase)[0..] == Rows(t.diffBase);
      FlatRows(t.diffBase);
    }
  }

  // ----- accepting while an update is in flight

  /** With no update in flight, what is accepted lasts through the next one, if that is the agent's, or the one that accepting
      schedules itself. */
  lemma KeepLasts(s: Log, rows: Span, changes: Patch, hunks: Patch)
    requires Inv(s) && s.tracked.Some? && !s.tracked.value.status.Deleted? && s.tracked.value.inFlight.None?
    ensures Inv(KeepRange(s, rows)) && (s.tracked.value.queue == [] ==> CanStart(KeepRange(s, rows), []))
    ensures var k, queue := KeepRange(s, rows), s.tracked.value.queue;
      CanStart(k, changes) && (if queue == [] then changes == [] else queue[0].author.Agent?)
      && CanFinish(StartUpdate(k, changes), hunks) ==>
        Finish(StartUpdate(k, changes), hunks).tracked.value.diffBase == k.tracked.value.diffBase
  {
    hide Reviewed, Accepted, Leave, Rebased, TextAt, KnownBy, MemosApart;
    KeepKeeps(s, rows);
    if s.tracked.value.queue == [] {
      UnchangedTextKeepsBase(KeepRange(s, rows));
    }
  }

  /** Steps that may come while an update is in flight: edits, and accepting. */
  predicate EditsOrKeeps(op: Op) {
    || op.BufferRead? || op.UserEdits? || op.AgentEdits? || op.KeepInRows? || op.KeepAllEdits? || op.UndoLastReject?
  }

  predicate IsInFlight(s: Log, f: InFlight) {
    s.tracked.Some? && !s.tracked.value.status.Deleted? && s.tracked.value.inFlight == Some(f)
  }

  lemma InFlightStep(s: Log, op: Op, f: InFlight)
    requires Inv(s) && Enabled(s, op) && IsInFlight(s, f) && EditsOrKeeps(op)
    ensures IsInFlight(Next(s, op), f)
  {
    hide Reviewed, Anchored, Snapshots, Takes, Coalesced, InOrder, SpliceFrom, Rewritten, Accepted, Restoring;
  }

  lemma {:induction false} InFlightRun(s: Log, ops: seq<Op>, r: Log, f: InFlight)
    requires Inv(s) && Runs(s, ops, r) && IsInFlight(s, f) && forall k | 0 <= k < |ops| :: EditsOrKeeps(ops[k])
    ensures IsInFlight(r, f)
    decreases |ops|
  {
    hide Inv, Next, Enabled, IsInFlight;
    if ops != [] {
      assert EditsOrKeeps(ops[0]);
      StepKeepsInv(s, ops[0]);
      InFlightStep(s, ops[0], f);
      InFlightRun(Next(s, ops[0]), ops[1..], r, f);
    }
  }

  /** While an update is in flight, accepting has no effect on what the update installs: however much is accepted and edited
      before it finishes, it gives the base, the snapshot and the unreviewed edits it would have given at once. */
  lemma KeepIsLostInFlight(s: Log, ops: seq<Op>, r: Log, hunks: Patch)
    requires Inv(s) && CanFinish(s, hunks) && !s.tracked.value.status.Deleted?
    requires Runs(s, ops, r) && forall k | 0 <= k < |ops| :: EditsOrKeeps(ops[k])
    ensures CanFinish(r, hunks)
    ensures var done, without := Finish(r, hunks).tracked.value, Finish(s, hunks).tracked.value;
      done.diffBase == without.diffBase && done.snapshot == without.snapshot && done.unreviewed == without.unreviewed
  {
    InFlightRun(s, ops, r, s.tracked.value.inFlight.value);
    hide Inv, Runs, Takes;
  }

  /** All hunks that the rows touch, but the last, have as many new rows as base rows. */
  predicate RowsStay(hunks: Patch) {
    forall k | 0 <= k < |hunks| - 1 :: hunks[k].Growth() == 0
  }

  /** So what is accepted while an update is in flight that leaves the base alone lasts exactly if folding the touched hunks
      in leaves the rows of the base as they are. It does if each of them puts in the rows it takes out, and only then if
      all of them but the last keep the number of rows, as a single hunk does. */
  lemma KeepLastsExactly(s: Log, rows: Span, hunks: Patch)
    requires Inv(s) && CanFinish(s, hunks) && !s.tracked.value.status.Deleted?
    requires s.tracked.value.inFlight.value.base == s.tracked.value.diffBase
    ensures CanFinish(KeepRange(s, rows), hunks)
    ensures var t, touched := s.tracked.value, Pick(s.tracked.value.unreviewed, Touched(rows));
      var a, b := Rows(t.diffBase), Rows(t.snapshot);
      var lasts := Finish(KeepRange(s, rows), hunks).tracked.value.diffBase == KeepRange(s, rows).tracked.value.diffBase;
      && Fits(touched, a, b, 0) && (lasts <==> Apply(touched, a, b) == a)
      && ((forall k | 0 <= k < |touched| :: IsSame(touched[k], a, b)) ==> lasts)
      && (RowsStay(touched) && lasts ==> forall k | 0 <= k < |touched| :: IsSame(touched[k], a, b))
  {
    var t, touched := s.tracked.value, Pick(s.tracked.value.unreviewed, Touched(rows));
    var a, b := Rows(t.diffBase), Rows(t.snapshot);
    FinishAfterKeeping(s, rows, hunks);
    hide Inv, CanFinish, KeepRange, Finish, Reviewed, Accepted, Rows, Pick, Fits, ApplyFrom, Flat, IsSame;
    AcceptedRows(t, Touched(rows));
    FlatRows(t.diffBase);
    FlatRows(Accepted(t, Touched(rows)));
    ApplyIs(touched, a, b);
    assert a[0..] == a;
    if forall k | 0 <= k < |touched| :: IsSame(touched[k], a, b) {
      SameEditsApply(touched, a, b, 0);
    }
    if RowsStay(touched) && Apply(touched, a, b) == a {
      NothingAppliedMeansSame(touched, a, b, 0);
    }
  }

  lemma FinishAfterKeeping(s: Log, rows: Span, hunks: Patch)
    requires Inv(s) && CanFinish(s, hunks) && !s.tracked.value.status.Deleted?
    ensures CanFinish(KeepRange(s, rows), hunks) && Reviewed(s.tracked.value)
    ensures Finish(KeepRange(s, rows), hunks).tracked.value.diffBase == s.tracked.value.inFlight.value.base
    ensures KeepRange(s, rows).tracked.value.diffBase == Accepted(s.tracked.value, Touched(rows))
  {
    hide Reviewed, Accepted, Leave, TextAt, KnownBy, MemosApart;
  }

  /** Accepting everything while such an update is in flight lasts exactly if nothing differed from the base. */
  lemma KeepAllLastsExactly(s: Log, hunks: Patch)
    requires Inv(s) && CanFinish(s, hunks) && !s.tracked.value.status.Deleted?
    requires s.tracked.value.inFlight.value.base == s.tracked.value.diffBase
    ensures CanFinish(KeepAll(s), hunks)
    ensures Finish(KeepAll(s), hunks).tracked.value.diffBase == KeepAll(s).tracked.value.diffBase
      <==> s.tracked.value.diffBase == s.tracked.value.snapshot
  {
    hide Reviewed, TextAt, KnownBy, MemosApart;
  }
}
