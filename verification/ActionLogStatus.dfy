/** What each step does to the tracking of the buffer: when it starts and stops, the status it leaves, and what it queues. */
module ActionLogStatus {
  import opened Options
  import opened LineText
  import opened Patches
  import opened RowEdits
  import opened Rebase
  import opened Review
  import opened Buffers
  import opened Documents
  import opened Anchors
  import opened Rejection
  import opened ActionLogs
  import opened ActionLogRuns

  // ----- the states of tracking

  function StatusOf(s: Log): Option<Status> {
    if s.tracked.None? then None else Some(s.tracked.value.status)
  }

  predicate IsTouched(e: Edit, rows: Span) {
    e.after.start <= rows.end && rows.start <= e.after.end
  }

  predicate AllTouched(p: Patch, rows: Span) {
    forall k | 0 <= k < |p| :: IsTouched(p[k], rows)
  }

  /** The diagram: nothing tracked, or a created, modified or deleted buffer, and where each step leads. */
  function StatusAfter(s: Log, op: Op): Option<Status> {
    match StatusOf(s)
    case None =>
      (match op
       case BufferRead => Some(Modified)
       case BufferCreated(onDisk) => Some(Created(if onDisk then Some(s.buffer) else None))
       case AgentEdits(_, _) => Some(Modified)
       case WillDeleteBuffer => Some(Deleted)
       case UndoLastReject(_) => if s.undo.Some? then Some(Modified) else None
       case _ => None)
    case Some(Created(existing)) =>
      (match op
       case WillDeleteBuffer => None
       case FileChange(isDeleted) => if isDeleted then None else Some(Created(existing))
       case KeepInRows(rows) => Some(if AllTouched(s.tracked.value.unreviewed, rows) then Modified else Created(existing))
       case KeepAllEdits => Some(Modified)
       case RejectInRows(_, _) => None
       case RejectAllEdits(hasEdits, _) => if hasEdits then None else Some(Created(existing))
       case _ => Some(Created(existing)))
    case Some(Modified) =>
      (match op
       case BufferCreated(_) => Some(Created(Some(s.tracked.value.diffBase)))
       case WillDeleteBuffer => Some(Deleted)
       case FileChange(isDeleted) => if isDeleted then None else Some(Modified)
       case _ => Some(Modified))
    case Some(Deleted) =>
      (match op
       case BufferCreated(_) => Some(Created(Some(s.tracked.value.diffBase)))
       case AgentEdits(_, _) => Some(Modified)
       case FileChange(isDeleted) => Some(if isDeleted then Deleted else Modified)
       case KeepInRows(_) => None
       case KeepAllEdits => None
       case RejectInRows(_, _) => Some(Modified)
       case RejectAllEdits(hasEdits, _) => Some(if hasEdits then Modified else Deleted)
       case _ => Some(Deleted))
  }

  lemma {:induction false} NothingLeft(p: Patch, rows: Span, d: int)
    ensures Leave(p, Touched(rows), d) == [] <==> AllTouched(p, rows)
  {
    if p != [] {
      NothingLeft(p[1..], rows, if Touched(rows)(p[0]) then d + p[0].Growth() else d);
      assert forall k | 0 <= k < |p[1..]| :: p[1..][k] == p[k + 1];
      if Touched(rows)(p[0]) && AllTouched(p[1..], rows) {
        assert forall k | 0 < k < |p| :: p[k] == p[1..][k - 1];
      }
    }
  }

  lemma ReviewDiagram(s: Log, op: Op)
    requires Inv(s) && Enabled(s, op)
    requires op.KeepInRows? || op.KeepAllEdits? || op.RejectInRows? || op.RejectAllEdits? || op.UndoLastReject?
    ensures StatusOf(Next(s, op)) == StatusAfter(s, op)
  {
    hide Reviewed, Anchored, Snapshots, Coalesced, InOrder, SpliceFrom, Rewritten, Accepted, Restoring, Reverting, AllTouched,
      Touched, Leave, SetText;
    if op.KeepInRows? && s.tracked.Some? {
      NothingLeft(s.tracked.value.unreviewed, op.rows, 0);
    }
  }

  /** Every step follows the diagram. */
  lemma StatusDiagram(s: Log, op: Op)
    requires Inv(s) && Enabled(s, op)
    ensures StatusOf(Next(s, op)) == StatusAfter(s, op)
  {
    hide Reviewed, Anchored, Snapshots, Takes, Coalesced, InOrder, SpliceFrom, Rewritten, AllTouched, SetText, KeepRange, KeepAll,
      RejectRanges, RejectAll, UndoReject;
    if op.KeepInRows? || op.KeepAllEdits? || op.RejectInRows? || op.RejectAllEdits? || op.UndoLastReject? {
      ReviewDiagram(s, op);
    }
  }

  // ----- keeping in created and deleted buffers

  /** Once the rows kept touch every hunk, a created buffer is one that was modified, and no later reject changes it. */
  lemma KeepingAllHunksIsFinal(s: Log, rows: Span, ranges: seq<Span>, front: set<nat>)
    requires Inv(s) && s.tracked.Some? && !s.tracked.value.status.Deleted? && AllTouched(s.tracked.value.unreviewed, rows)
    ensures Inv(KeepRange(s, rows)) && Reject(KeepRange(s, rows), ranges, front) == (KeepRange(s, rows), None)
    ensures KeepRange(s, rows).buffer == s.buffer && KeepRange(s, rows).tracked.value.status == Modified
  {
    KeepKeeps(s, rows);
    NothingLeft(s.tracked.value.unreviewed, rows, 0);
    NothingRejected(KeepRange(s, rows), ranges);
    hide SpliceFrom, InOrder, TextAt, KnownBy, Reviewed, Snapshots, MemosApart, Accepted, AllTouched, Leave, Reverting;
  }

  /** As long as some hunk is left, a created buffer stays one: rejecting gives back what the file was before, or, if there was
      no file, leaves the buffer and stops tracking it. */
  lemma KeepingSomeHunksIsNot(s: Log, rows: Span, ranges: seq<Span>, front: set<nat>)
    requires Inv(s) && s.tracked.Some? && s.tracked.value.status.Created? && !AllTouched(s.tracked.value.unreviewed, rows)
    ensures Inv(KeepRange(s, rows)) && KeepRange(s, rows).tracked.value.status == s.tracked.value.status
    ensures var (r, undo) := Reject(KeepRange(s, rows), ranges, front);
      && r.tracked.None?
      && match s.tracked.value.status.existing
         case Some(existing) => r.buffer == existing && undo == Some([Memo(0, |r.doc|, s.buffer)])
         case None => r == s.(tracked := None) && undo.None?
  {
    KeepKeeps(s, rows);
    NothingLeft(s.tracked.value.unreviewed, rows, 0);
    hide SpliceFrom, InOrder, TextAt, KnownBy, Reviewed, Snapshots, MemosApart, Accepted, AllTouched, Leave, Reverting, SetText,
      Coalesced;
    if s.tracked.value.status.existing.Some? {
      RejectCreatedKeeps(KeepRange(s, rows), s.tracked.value.status.existing.value);
    }
  }

  /** Keeping in a deleted buffer accepts the deletion: it is no longer tracked. Rejecting gives the text back, tracked as if
      it had just been read. */
  lemma DeletionIsReviewed(s: Log, rows: Span, ranges: seq<Span>, front: set<nat>)
    requires Inv(s) && StatusOf(s) == Some(Deleted)
    ensures KeepRange(s, rows) == s.(tracked := None) == KeepAll(s)
    ensures var (r, undo) := Reject(s, ranges, front);
      IsFresh(r) && r.buffer == s.tracked.value.diffBase && undo.None?
  {
    hide SpliceFrom, InOrder, TextAt, KnownBy, Reviewed, Snapshots, MemosApart, SetText, Coalesced, Rewritten;
    SetTextSets(s, s.tracked.value.diffBase);
  }

  // ----- undoing

  /** Undoing a reject leaves the buffer tracked. If rejecting had ended the tracking, it starts again from the text put back,
      with an update of the agent's waiting; otherwise what is under review stays, and text put back is queued as the user's. */
  lemma UndoTracks(s: Log, front: set<nat>)
    requires Inv(s) && s.undo.Some?
    ensures var u := UndoReject(s, front);
      && u.undo.None? && u.tracked.Some?
      && if s.tracked.None? then
           var t := u.tracked.value;
           && IsFresh(u.(tracked := Some(t.(queue := []))))
           && t.queue == [Update(Agent, u.buffer, u.version)]
         else
           u.tracked == if u.version == s.version then s.tracked else Queued(s, [Update(User, u.buffer, u.version)])
  {
    hide Reviewed, TextAt, KnownBy, Snapshots, Coalesced, InOrder, SpliceFrom, MemosApart, Restoring, Rewritten;
    EditedKeeps(s.(undo := None), Restoring(s), front);
  }

  /** What is tracked, with these updates waiting as well. */
  function Queued(s: Log, updates: seq<Update>): Option<Tracked>
    requires s.tracked.Some?
  {
    Some(s.tracked.value.(queue := s.tracked.value.queue + updates))
  }

  // ----- where tracking starts

  /** The text of the buffer is the base, nothing is under review, and nothing is waiting. */
  predicate IsFresh(s: Log) {
    && s.tracked.Some?
    && var t := s.tracked.value;
       t.diffBase == t.snapshot == s.buffer && t.snapshotAt == t.version == s.version && t.unreviewed == []
       && t.status.Modified? && Drained(t)
  }

  /** The whole text of the buffer is under review, as the agent's. */
  predicate IsAllNew(s: Log) {
    && s.tracked.Some?
    && var t := s.tracked.value;
       t.diffBase == "" && t.snapshot == s.buffer && t.snapshotAt == t.version == s.version && t.status.Created? && Drained(t)
       && |t.unreviewed| == 1 && t.unreviewed[0].before == Span(0, 1) && t.unreviewed[0].after == Span(0, |Rows(s.buffer)|)
  }

  /** Steps that change what is tracked without editing the buffer. */
  lemma TrackingStarts(s: Log, op: Op)
    requires Inv(s) && (op.BufferRead? || op.BufferCreated? || op.FileChange?)
    ensures var r := Next(s, op);
      && SameBuffer(r, s) && r.undo == s.undo
      && (op.BufferCreated? ==> IsAllNew(r))
      && (op.BufferRead? && s.tracked.None? ==> IsFresh(r))
      && (op.BufferRead? && s.tracked.Some? ==> r.tracked == Some(s.tracked.value.(version := s.version)))
      && (op == FileChange(false) && StatusOf(s) == Some(Deleted) ==> IsFresh(r))
      && (op == FileChange(true) && StatusOf(s) != Some(Deleted) ==> r.tracked.None?)
      && (op.FileChange? && op.isDeleted == (StatusOf(s) == Some(Deleted)) && StatusOf(s) != None ==> r == s)
  {
  }

  lemma SnapshotsParts(t: Tracked, t': Tracked, s: Log)
    requires Snapshots(t, s.doc, s.version) && t' == t.(version := t'.version, status := t'.status)
    ensures Snapshots(t', s.doc, s.version)
  {
  }

  /** Who an edit is attributed to. The edits are queued with the author who made them, once; only the deletion of a buffer
      is queued a second time, as the user's. Nothing else of what is tracked changes but the version and the status. */
  lemma EditsAreAttributed(s: Log, op: Op)
    requires Inv(s) && Enabled(s, op) && s.tracked.Some? && (op.UserEdits? || op.AgentEdits? || op.WillDeleteBuffer?)
    ensures var r, was := Next(s, op), s.tracked.value;
      && (op.UserEdits? ==>
            r.tracked == if r.version == s.version then s.tracked else Queued(s, [Update(User, r.buffer, r.version)]))
      && (op.AgentEdits? ==>
            && r.tracked.Some?
            && r.tracked.value == Queued(s, [Update(Agent, r.buffer, r.version)]).value.(
                 version := r.version, status := if was.status.Deleted? then Modified else was.status))
      && (op.WillDeleteBuffer? && was.status.Modified? ==>
            && r.buffer == "" && r.tracked.Some?
            && var again := if r.version == s.version then [] else [Update(User, "", r.version)];
               r.tracked.value == Queued(s, [Update(Agent, "", r.version)] + again).value.(version := s.version, status := Deleted))
  {
    hide Reviewed, TextAt, KnownBy, Snapshots, Coalesced, InOrder, SpliceFrom, MemosApart, Rewritten, SetText;
    if op.WillDeleteBuffer? {
      var d := s.(tracked := Some(s.tracked.value.(version := s.version, status := Deleted)));
      ReviewedParts(s.tracked.value, d.tracked.value);
      SnapshotsParts(s.tracked.value, d.tracked.value, s);
      SetTextSets(d, "");
      EditedKeeps(d, SetText(s.buffer, ""), {});
    } else {
      EditedKeeps(s, op.edits, op.front);
    }
  }

  /** Keeping in a buffer that is not deleted leaves the buffer, and queues an update of the user's; so does rejecting in a
      modified one, if it edits the buffer, which leaves base and hunks until the update is processed. */
  lemma ReviewsAreQueued(s: Log, op: Op)
    requires Inv(s) && Enabled(s, op) && s.tracked.Some? && !s.tracked.value.status.Deleted?
    requires op.KeepInRows? || op.KeepAllEdits? || (op.RejectInRows? && s.tracked.value.status.Modified?)
    ensures var r := Next(s, op);
      && r.tracked.Some? && r.tracked.value.snapshot == s.tracked.value.snapshot
      && r.tracked.value.version == s.tracked.value.version
      && r.tracked.value.inFlight == s.tracked.value.inFlight
      && (!op.RejectInRows? ==> SameBuffer(r, s) && r.undo == s.undo)
      && r.tracked.value.queue == s.tracked.value.queue
           + (if op.RejectInRows? && r.version == s.version then [] else [Update(User, r.buffer, r.version)])
      && (op.RejectInRows? ==>
            r.tracked.value.unreviewed == s.tracked.value.unreviewed && r.tracked.value.diffBase == s.tracked.value.diffBase)
  {
    hide Reviewed, TextAt, KnownBy, Snapshots, Coalesced, InOrder, SpliceFrom, MemosApart, Rewritten, Accepted, Leave, Touched, Reverting,
      ChangesOf, CarryMemos, HunkMemos;
  }

  lemma {:induction false} SkipsToTouching(ranges: seq<Span>, x: int)
    ensures var rest := SkipRanges(ranges, x); rest != [] ==> rest[0] in ranges && rest[0].end >= x
    ensures forall r | r in SkipRanges(ranges, x) :: r in ranges
  {
    if ranges != [] && ranges[0].end < x {
      SkipsToTouching(ranges[1..], x);
    }
  }

  lemma {:induction false} NoneSelected(ranges: seq<Span>, hunks: seq<Span>)
    requires forall r, h | r in ranges && h in hunks :: !Touches(r, h)
    ensures forall k | 0 <= k < |hunks| :: !Selected(ranges, hunks)[k]
    decreases |hunks|
  {
    if hunks != [] {
      SkipsToTouching(ranges, hunks[0].start);
      var rest := SkipRanges(ranges, hunks[0].start);
      if rest != [] {
        assert !Touches(rest[0], hunks[0]);
      }
      NoneSelected(rest, hunks[1..]);
    }
  }

  lemma {:induction false} NoneChosen(p: Patch, flags: seq<bool>)
    requires |p| == |flags| && forall k | 0 <= k < |flags| :: !flags[k]
    ensures Choose(p, flags) == []
  {
    if p != [] {
      NoneChosen(p[1..], flags[1..]);
    }
  }

  /** The rows of the buffer on which the hunks lie now. */
  ghost function RowsUnderReview(s: Log): seq<Span>
    requires Inv(s) && s.tracked.Some?
  {
    TakesProper(s.tracked.value.unreviewed, Rows(s.tracked.value.diffBase), Rows(s.tracked.value.snapshot), 0, 0);
    HunkRows(s.tracked.value.unreviewed, HistoryOf(s))
  }

  /** Rejecting ranges that touch no row of any hunk changes nothing, the undo of the reject before included. */
  lemma RejectingElsewhereChangesNothing(s: Log, ranges: seq<Span>, front: set<nat>)
    requires Inv(s) && StatusOf(s) == Some(Modified) && 0 !in front
    requires forall r, h | r in ranges && h in RowsUnderReview(s) :: !Touches(r, h)
    ensures Next(s, RejectInRows(ranges, front)) == s
  {
    hide Reviewed, Anchored, Snapshots, HunkRows, Selected;
    NoneSelected(ranges, RowsUnderReview(s));
    NoneChosen(s.tracked.value.unreviewed, Selected(ranges, RowsUnderReview(s)));
    assert Rejected(s, ranges) == [];
    assert Reverting(s, ranges) == [] && Coalesced([]) == [];
  }

  // ----- commits

  /** The hunk stands for the same base rows as a committed edit, and puts in the same text. */
  predicate IsIn(e: Edit, committed: Patch, snapshot: string, gitBase: string) {
    0 <= e.after.start <= e.after.end && exists k | 0 <= k < |committed| && 0 <= committed[k].after.start <= committed[k].after.end ::
      && committed[k].before == e.before
      && RowSlice(gitBase, committed[k].after.start, committed[k].after.end) == RowSlice(snapshot, e.after.start, e.after.end)
  }

  /** A commit accepts exactly the hunks that are in it. */
  lemma CommittedHunksAreAccepted(s: Log, committed: Patch, gitBase: string, kept: seq<bool>)
    requires Inv(s) && CanCommit(s, committed) && |kept| == |s.tracked.value.unreviewed|
    requires var t := s.tracked.value;
      forall k | 0 <= k < |kept| :: kept[k] <==> IsIn(t.unreviewed[k], committed, t.snapshot, gitBase)
    ensures var t, f := s.tracked.value, StartCommit(s, committed, gitBase).tracked.value.inFlight.value;
      && f.snapshot == t.snapshot && Fits(Choose(t.unreviewed, kept), Rows(t.diffBase), Rows(t.snapshot), 0)
      && Rows(f.base) == Apply(Choose(t.unreviewed, kept), Rows(t.diffBase), Rows(t.snapshot))
  {
    hide Rows, Anchored, Snapshots, RowSlice, Accepted, TakesFrom, Separated, Fits, Apply;
    var t := s.tracked.value;
    var f := IsCommitted(committed, t.snapshot, gitBase);
    AcceptedRows(t, f);
    ChooseIsPick(t.unreviewed, kept, f);
  }

  /** If the text committed is the snapshot and the commit's edits are the hunks, all are accepted. */
  lemma CommittingEverythingAcceptsIt(s: Log)
    requires Inv(s) && s.tracked.Some? && CanCommit(s, s.tracked.value.unreviewed)
    ensures StartCommit(s, s.tracked.value.unreviewed, s.tracked.value.snapshot).tracked.value.inFlight.value.base == s.tracked.value.snapshot
  {
    hide Rows, Anchored, Snapshots, RowSlice, Accepted, Separated, Flat;
    var t := s.tracked.value;
    var p, a, b := t.unreviewed, Rows(t.diffBase), Rows(t.snapshot);
    TakesProper(p, a, b, 0, 0);
    TakesApplies(p, a, b, 0, 0);
    hide TakesFrom;
    var f, kept := IsCommitted(p, t.snapshot, t.snapshot), seq(|p|, k => true);
    forall k | 0 <= k < |p| ensures f(p[k]) {
      assert SameChange(p[k], p[k], t.snapshot, t.snapshot);
    }
    ChooseIsPick(p, kept, f);
    ChooseIsPick(p, kept, (e: Edit) => true);
    PickAll(p, (e: Edit) => true);
    AcceptedRows(t, f);
    assert b[0..] == b;
    FlatRows(t.snapshot);
    FlatRows(Accepted(t, f));
  }

  // ----- what only the user does is never under review

  /** Nothing of a buffer is the agent's. */
  predicate OnlyUsers(s: Log) {
    && s.undo.None?
    && (s.tracked.Some? ==>
          var t := s.tracked.value;
          && t.unreviewed == [] && t.diffBase == t.snapshot && t.status.Modified?
          && (t.inFlight.Some? ==> t.inFlight.value.base == t.inFlight.value.snapshot)
          && (forall k | 0 <= k < |t.queue| :: t.queue[k].author.User?))
  }

  predicate IsAgents(op: Op) {
    op.AgentEdits? || op.BufferCreated? || op.WillDeleteBuffer?
  }

  lemma NothingAccepted(t: Tracked, f: Edit -> bool)
    requires Reviewed(t) && t.unreviewed == []
    ensures Accepted(t, f) == t.diffBase
  {
    assert Rows(t.diffBase)[0..] == Rows(t.diffBase);
    FlatRows(t.diffBase);
  }

  lemma UsersStep(s: Log, op: Op)
    requires Inv(s) && Enabled(s, op) && OnlyUsers(s) && !IsAgents(op)
    ensures OnlyUsers(Next(s, op))
  {
    hide TextAt, KnownBy, Snapshots, Coalesced, InOrder, SpliceFrom, MemosApart, Rewritten, Rows, Accepted, Rebased, Reverting,
      IsCommitted, TakesFrom, Separated;
    if s.tracked.Some? {
      var t := s.tracked.value;
      match op
      case KeepInRows(rows) => NothingAccepted(t, Touched(rows));
      case StartCommitted(committed, gitBase) => NothingAccepted(t, IsCommitted(committed, t.snapshot, gitBase));
      case StartTracking(changes) => UserEditsAreAccepted(s, changes);
      case RejectInRows(ranges, front) => NothingRejected(s, ranges);
      case RejectAllEdits(hasEdits, front) => NothingRejected(s.(undo := None), [Span(0, |Rows(s.buffer)| - 1)]);
      case UserEdits(edits, front) => EditedKeeps(s, edits, front);
      case _ =>
    }
  }

  /** Over every run in which the agent neither edits nor creates nor deletes the buffer, whatever is read, typed, kept, rejected,
      committed and processed in between, nothing comes under review: the base is the snapshot, the buffer once all updates
      have been processed; rejecting changes nothing and leaves nothing to undo. */
  lemma {:induction false} UserEditsAreNeverUnderReview(s: Log, ops: seq<Op>, r: Log, ranges: seq<Span>, front: set<nat>)
    requires Inv(s) && OnlyUsers(s) && Runs(s, ops, r) && forall k | 0 <= k < |ops| :: !IsAgents(ops[k])
    ensures Inv(r) && OnlyUsers(r)
    ensures r.tracked.Some? && Drained(r.tracked.value) ==> r.tracked.value.diffBase == r.buffer
    ensures Reject(r, ranges, front) == (r, None)
    decreases |ops|
  {
    hide Next, Enabled, Reviewed, KnownBy, MemosApart, TextAt, Reverting;
    if ops == [] {
      if r.tracked.Some? {
        NothingRejected(r, ranges);
      }
    } else {
      assert !IsAgents(ops[0]);
      StepKeepsInv(s, ops[0]);
      UsersStep(s, ops[0]);
      UserEditsAreNeverUnderReview(Next(s, ops[0]), ops[1..], r, ranges, front);
    }
  }
}
