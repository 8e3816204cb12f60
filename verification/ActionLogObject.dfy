/** The action log as the object it is: its methods change it in place, and each is one step of the run. */
module ActionLogObject {
  import opened Options
  import opened LineText
  import opened Patches
  import opened RowPatches
  import opened RowEdits
  import opened Rebase
  import opened Review
  import opened Buffers
  import opened Documents
  import opened Anchors
  import opened Rejection
  import opened ActionLogs
  import opened ActionLogRuns

  /** What is tracked of the buffer. */
  class TrackedBuffer {
    var diffBase: string
    var unreviewed: Patch
    var snapshot: string
    var snapshotAt: nat
    var status: Status
    var version: nat
    var queue: seq<Update>
    var inFlight: Option<InFlight>

    constructor (diffBase: string, unreviewed: Patch, snapshot: string, status: Status, version: nat)
      ensures Value() == Tracked(diffBase, unreviewed, snapshot, version, status, version, [], None)
    {
      this.diffBase, this.unreviewed, this.snapshot, this.snapshotAt := diffBase, unreviewed, snapshot, version;
      this.status, this.version, this.queue, this.inFlight := status, version, [], None;
    }

    function Value(): Tracked
      reads this
    {
      Tracked(diffBase, unreviewed, snapshot, snapshotAt, status, version, queue, inFlight)
    }

    method ScheduleDiffUpdate(author: Author, text: string, at: nat)
      modifies this
      ensures Value() == old(Value()).(queue := old(queue) + [Update(author, text, at)])
    {
      queue := queue + [Update(author, text, at)];
    }

    /** Accepts the hunks that touch the rows. */
    method KeepEditsInRange(rows: Span)
      requires Reviewed(Value())
      modifies this
      ensures Value() == old(Value()).(diffBase := old(Accepted(Value(), Touched(rows))),
                                       unreviewed := Leave(old(unreviewed), Touched(rows), 0))
    {
      var base := new Rope(diffBase);
      var left, added, removed := KeepInRange(base, unreviewed, snapshot, rows);
      FlatRows(base.text);
      diffBase, unreviewed := base.text, left;
    }

    /** Takes the first update off the queue and computes the base it leaves. `edits` are the character edits between
        the two snapshots. */
    method StartUpdate(edits: Patch)
      requires Reviewed(Value()) && inFlight.None? && queue != []
      requires Takes(edits, snapshot, queue[0].text) && Separated(edits)
      modifies this
      ensures forall s: Log | s.tracked == Some(old(Value())) && Inv(s) ::
        CanStart(s, edits) && ActionLogs.StartUpdate(s, edits).tracked == Some(Value())
    {
      var update := queue[0];
      var base := new Rope(diffBase);
      ghost var was := Value();
      var rowEdits := DiffSnapshots(edits, snapshot, update.text);
      if update.author.User? {
        var _ := ApplyNonConflictingEdits(unreviewed, rowEdits, base, snapshot, update.text);
        FlatRows(base.text);
      }
      queue, inFlight := queue[1..], Some(InFlight(update.text, update.at, base.text));
    }

    /** Computes the base that accepting the committed hunks leaves. */
    method StartCommitted(committed: Patch, gitBase: string)
      requires Reviewed(Value()) && inFlight.None? && Separated(committed) && Proper(committed)
      requires forall k | 0 <= k < |committed| :: 0 <= committed[k].after.start
      modifies this
      ensures Value() == old(Value()).(inFlight :=
        Some(InFlight(old(snapshot), old(snapshotAt), old(Accepted(Value(), IsCommitted(committed, snapshot, gitBase))))))
    {
      var base := new Rope(diffBase);
      KeepCommitted(base, unreviewed, snapshot, committed, gitBase);
      FlatRows(base.text);
      inFlight := Some(InFlight(snapshot, snapshotAt, base.text));
    }

    /** Installs the new base and snapshot, and the row edits of a diff of them. */
    method FinishUpdate(hunks: Patch)
      requires inFlight.Some? && Takes(hunks, inFlight.value.base, inFlight.value.snapshot)
      requires Separated(hunks) && forall k | 0 <= k < |hunks| :: !hunks[k].IsEmpty()
      modifies this
      ensures AllWithin(hunks, old(inFlight.value.base), old(inFlight.value.snapshot))
      ensures Value() == old(Value()).(
        diffBase := old(inFlight.value.base), snapshot := old(inFlight.value.snapshot),
        snapshotAt := old(inFlight.value.at), inFlight := None,
        unreviewed := CoalesceAll(RowEditsOf(hunks, old(inFlight.value.base), old(inFlight.value.snapshot))))
    {
      unreviewed := UnreviewedEdits(hunks, inFlight.value.base, inFlight.value.snapshot);
      diffBase, snapshot, snapshotAt := inFlight.value.base, inFlight.value.snapshot, inFlight.value.at;
      inFlight := None;
    }
  }

  class ActionLog {
    var buffer: string
    var doc: Document
    var version: nat
    var tracked: TrackedBuffer?
    var lastRejectUndo: Option<seq<Memo>>

    ghost function Repr(): set<object>
      reads this
    {
      if tracked == null then {this} else {this, tracked}
    }

    ghost function Abs(): Log
      reads Repr()
    {
      Log(buffer, doc, version, if tracked == null then None else Some(tracked.Value()), lastRejectUndo)
    }

    ghost predicate Valid()
      reads Repr()
    {
      Inv(Abs())
    }

    constructor (buffer: string)
      ensures Valid() && Initial(Abs()) && this.buffer == buffer && fresh(Repr())
    {
      this.buffer, doc, version, tracked, lastRejectUndo := buffer, Block(buffer, 0), 0, null, None;
      new;
      InitialBuffer(buffer);
    }

    /** The buffer makes the edits at once, and the anchors of the last reject move along. */
    method Edit(edits: Splices, front: set<nat>)
      requires InOrder(Coalesced(edits), buffer, 0)
      modifies this
      ensures Abs() == Edited(old(Abs()), edits, front) && tracked == old(tracked)
    {
      var made := Coalesced(edits);
      if made != [] {
        var changes := ChangesOf(doc, version, made, front, 0);
        buffer, doc, version := SpliceFrom(made, buffer, 0), Rewritten(doc, changes, version), version + 1;
        if lastRejectUndo.Some? {
          lastRejectUndo := Some(CarryMemos(changes, lastRejectUndo.value));
        }
      }
    }

    method SetBufferText(text: string)
      modifies this
      ensures InOrder(Coalesced(SetText(old(buffer), text)), old(buffer), 0)
      ensures Abs() == Edited(old(Abs()), SetText(old(buffer), text), {}) && tracked == old(tracked)
    {
      Clears(buffer);
      Edit(SetText(buffer, text), {});
    }

    method HandleBufferEdited()
      modifies Repr()
      ensures Abs() == HandleEdited(old(Abs())) && Repr() == old(Repr())
    {
      if tracked != null && version > tracked.version {
        tracked.ScheduleDiffUpdate(User, buffer, version);
      }
    }

    method TrackBuffer(isCreated: bool, onDisk: bool)
      modifies Repr()
      ensures Abs() == Track(old(Abs()), isCreated, onDisk) && tracked != null && fresh(Repr() - old(Repr()))
    {
      if isCreated {
        var existing: Option<string>;
        if tracked != null {
          match tracked.status {
            case Created(e) => existing := e;
            case _ => existing := Some(tracked.diffBase);
          }
        } else {
          existing := if onDisk then Some(buffer) else None;
        }
        tracked := new TrackedBuffer("", [Patches.Edit(Span(0, 1), Span(0, |Rows(buffer)|))], buffer, Created(existing), version);
      } else if tracked == null {
        tracked := new TrackedBuffer(buffer, [], buffer, Modified, version);
      } else {
        tracked.version := version;
      }
    }

    method BufferRead()
      requires Valid()
      modifies Repr()
      ensures Valid() && Abs() == Next(old(Abs()), Op.BufferRead) && fresh(Repr() - old(Repr()))
    {
      StepKeepsInv(Abs(), Op.BufferRead);
      TrackBuffer(false, false);
    }

    method BufferCreated(onDisk: bool)
      requires Valid()
      modifies Repr()
      ensures Valid() && Abs() == Next(old(Abs()), Op.BufferCreated(onDisk)) && fresh(Repr() - old(Repr()))
    {
      StepKeepsInv(Abs(), Op.BufferCreated(onDisk));
      TrackBuffer(true, onDisk);
    }

    method BufferEdited()
      modifies Repr()
      ensures Abs() == ActionLogs.BufferEdited(old(Abs())) && fresh(Repr() - old(Repr()))
    {
      TrackBuffer(false, false);
      if tracked.status.Deleted? {
        tracked.status := Modified;
      }
      tracked.ScheduleDiffUpdate(Agent, buffer, version);
    }

    method UserEdits(edits: Splices, front: set<nat>)
      requires Valid() && InOrder(edits, buffer, 0) && 0 !in front
      modifies Repr()
      ensures Valid() && Abs() == Next(old(Abs()), Op.UserEdits(edits, front)) && fresh(Repr() - old(Repr()))
    {
      StepKeepsInv(Abs(), Op.UserEdits(edits, front));
      CoalescedInOrder(edits, buffer, 0);
      var before := version;
      Edit(edits, front);
      if version > before {
        HandleBufferEdited();
      }
    }

    method AgentEdits(edits: Splices, front: set<nat>)
      requires Valid() && InOrder(edits, buffer, 0) && 0 !in front
      modifies Repr()
      ensures Valid() && Abs() == Next(old(Abs()), Op.AgentEdits(edits, front)) && fresh(Repr() - old(Repr()))
    {
      StepKeepsInv(Abs(), Op.AgentEdits(edits, front));
      CoalescedInOrder(edits, buffer, 0);
      Edit(edits, front);
      BufferEdited();
      HandleBufferEdited();
    }

    method WillDeleteBuffer()
      requires Valid()
      modifies Repr()
      ensures Valid() && Abs() == Next(old(Abs()), Op.WillDeleteBuffer) && fresh(Repr() - old(Repr()))
    {
      StepKeepsInv(Abs(), Op.WillDeleteBuffer);
      TrackBuffer(false, false);
      match tracked.status {
        case Created(_) => tracked := null;
        case Modified =>
          tracked.status := Deleted;
          SetBufferText("");
          tracked.ScheduleDiffUpdate(Agent, buffer, version);
          HandleBufferEdited();
        case Deleted =>
      }
    }

    method FileChange(isDeleted: bool)
      requires Valid()
      modifies Repr()
      ensures Valid() && Abs() == Next(old(Abs()), Op.FileChange(isDeleted)) && fresh(Repr() - old(Repr()))
    {
      StepKeepsInv(Abs(), Op.FileChange(isDeleted));
      if tracked != null {
        match tracked.status {
          case Deleted =>
            if !isDeleted {
              tracked := null;
              TrackBuffer(false, false);
            }
          case _ =>
            if isDeleted {
              tracked := null;
            }
        }
      }
    }

    method KeepEditsInRange(rows: Span)
      requires Valid()
      modifies Repr()
      ensures Valid() && Abs() == Next(old(Abs()), Op.KeepInRows(rows)) && fresh(Repr() - old(Repr()))
    {
      hide Reviewed, Accepted, Touched, Leave;
      StepKeepsInv(Abs(), Op.KeepInRows(rows));
      if tracked != null {
        if tracked.status.Deleted? {
          tracked := null;
        } else {
          tracked.KeepEditsInRange(rows);
          if tracked.unreviewed == [] && tracked.status.Created? {
            tracked.status := Modified;
          }
          tracked.ScheduleDiffUpdate(User, buffer, version);
        }
      }
    }

    method KeepAllEdits()
      requires Valid()
      modifies Repr()
      ensures Valid() && Abs() == Next(old(Abs()), Op.KeepAllEdits) && fresh(Repr() - old(Repr()))
    {
      StepKeepsInv(Abs(), Op.KeepAllEdits);
      if tracked != null {
        if tracked.status.Deleted? {
          tracked := null;
        } else {
          if tracked.status.Created? {
            tracked.status := Modified;
          }
          tracked.unreviewed := [];
          tracked.diffBase := tracked.snapshot;
          tracked.ScheduleDiffUpdate(User, buffer, version);
        }
      }
    }

    /** Rejects the hunks that the row ranges touch. */
    method Reject(ranges: seq<Span>, front: set<nat>) returns (undo: Option<seq<Memo>>)
      requires Valid()
      modifies Repr()
      ensures (Abs(), undo) == ActionLogs.Reject(old(Abs()), ranges, front) && fresh(Repr() - old(Repr()))
    {
      undo := None;
      if tracked != null {
        match tracked.status {
          case Created(existing) =>
            if existing.Some? {
              var agentContent := buffer;
              SetBufferText("");
              SetBufferText(existing.value);
              undo := Some([Memo(0, |doc|, agentContent)]);
            }
            tracked := null;
          case Deleted =>
            SetBufferText(tracked.diffBase);
            tracked := null;
            TrackBuffer(false, false);
          case Modified =>
            undo := RejectHunks(ranges, front);
        }
      }
    }

    method RejectHunks(ranges: seq<Span>, front: set<nat>) returns (undo: Option<seq<Memo>>)
      requires Valid() && tracked != null && tracked.status.Modified?
      modifies Repr()
      ensures (Abs(), undo) == ActionLogs.Reject(old(Abs()), ranges, front) && Repr() == old(Repr())
    {
      ghost var was := Abs();
      var h := History(doc, tracked.snapshotAt, version);
      TrackedPlaced(was);
      hide Reviewed, Anchored, Snapshots, InOrder, SpliceFrom, Selected, HunkRows, Choose, Reverts, HunkMemos, Placed, Coalesced;
      var edits, memos := RevertHunks(tracked.unreviewed, ranges, tracked.diffBase, h);
      RejectedIs(was, ranges);
      RevertingIs(was, ranges);
      hide Rejected, Reverting, ActionLogs.Reject;
      RejectModifiedIs(was, ranges, front);
      var before := version;
      var made := Coalesced(edits);
      undo := if edits == [] then None
              else Some(if made == [] then memos else CarryMemos(ChangesOf(doc, version, made, front, 0), memos));
      Edit(edits, front);
      if version > before {
        HandleBufferEdited();
      }
    }

    method RejectEditsInRanges(ranges: seq<Span>, front: set<nat>)
      requires Valid() && 0 !in front
      modifies Repr()
      ensures Valid() && Abs() == Next(old(Abs()), RejectInRows(ranges, front)) && fresh(Repr() - old(Repr()))
    {
      hide Reviewed, ActionLogs.Reject;
      StepKeepsInv(Abs(), RejectInRows(ranges, front));
      var undo := Reject(ranges, front);
      if undo.Some? {
        lastRejectUndo := undo;
      }
    }

    /** `hasEdits` says whether the diff of the buffer shows any hunk. */
    method RejectAllEdits(hasEdits: bool, front: set<nat>)
      requires Valid() && 0 !in front
      modifies Repr()
      ensures Valid() && Abs() == Next(old(Abs()), Op.RejectAllEdits(hasEdits, front)) && fresh(Repr() - old(Repr()))
    {
      hide Reviewed, ActionLogs.Reject;
      StepKeepsInv(Abs(), Op.RejectAllEdits(hasEdits, front));
      lastRejectUndo := None;
      if tracked != null && hasEdits {
        lastRejectUndo := Reject([Span(0, |Rows(buffer)| - 1)], front);
      }
    }

    method UndoLastReject(front: set<nat>)
      requires Valid() && 0 !in front
      modifies Repr()
      ensures Valid() && Abs() == Next(old(Abs()), Op.UndoLastReject(front)) && fresh(Repr() - old(Repr()))
    {
      hide Reviewed, InOrder, SpliceFrom, Coalesced, TextAt, KnownBy, Snapshots, MemosApart;
      StepKeepsInv(Abs(), Op.UndoLastReject(front));
      if lastRejectUndo.Some? {
        RestoringIs(Abs());
        ghost var restoring := Restoring(Abs());
        var edits, before := Resolve(doc, version, lastRejectUndo.value), version;
        lastRejectUndo := None;
        Edit(edits, front);
        if tracked == null {
          BufferEdited();
        } else if version > before {
          HandleBufferEdited();
        }
      }
    }

    method StartTracking(changes: Patch)
      requires Valid() && CanStart(Abs(), changes)
      modifies Repr()
      ensures Valid() && Abs() == Next(old(Abs()), Op.StartTracking(changes)) && Repr() == old(Repr())
    {
      hide Reviewed, Takes, Rebased;
      ghost var was := Abs();
      StepKeepsInv(was, Op.StartTracking(changes));
      assert was.tracked == Some(tracked.Value());
      tracked.StartUpdate(changes);
    }

    method StartCommitted(committed: Patch, gitBase: string)
      requires Valid() && CanCommit(Abs(), committed)
      modifies Repr()
      ensures Valid() && Abs() == Next(old(Abs()), Op.StartCommitted(committed, gitBase)) && Repr() == old(Repr())
    {
      hide Reviewed, Accepted;
      StepKeepsInv(Abs(), Op.StartCommitted(committed, gitBase));
      tracked.StartCommitted(committed, gitBase);
    }

    method FinishUpdate(hunks: Patch)
      requires Valid() && CanFinish(Abs(), hunks)
      modifies Repr()
      ensures Valid() && Abs() == Next(old(Abs()), Op.FinishUpdate(hunks)) && Repr() == old(Repr())
    {
      hide Reviewed, Takes;
      StepKeepsInv(Abs(), Op.FinishUpdate(hunks));
      tracked.FinishUpdate(hunks);
    }
  }

  lemma TrackedPlaced(s: Log)
    requires Inv(s) && s.tracked.Some?
    ensures Placed(s.tracked.value.unreviewed)
  {
    var t := s.tracked.value;
    TakesProper(t.unreviewed, Rows(t.diffBase), Rows(t.snapshot), 0, 0);
  }

  lemma RejectedIs(s: Log, ranges: seq<Span>)
    requires Inv(s) && s.tracked.Some?
    ensures var p, h := s.tracked.value.unreviewed, HistoryOf(s);
      Placed(p) && Rejected(s, ranges) == Choose(p, Selected(ranges, HunkRows(p, h)))
  {
    TrackedPlaced(s);
    hide Reviewed, Placed, Anchored, Snapshots, Choose, Selected, HunkRows;
  }
}
