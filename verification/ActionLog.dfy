/** The action log of one buffer: what is tracked of it, and every step that changes that. */
module ActionLogs {
  import opened Options
  import opened LineText
  import opened Patches
  import opened RowPatches
  import opened RowEdits
  import opened Rebase
  import opened Review
  import opened Buffers
  import opened Documents
  import opened Anchors
  import opened Rejection
  import Transport

  datatype Author = User | Agent

  datatype Status = Created(existing: Option<string>) | Modified | Deleted

  /** A snapshot of a version of the buffer, waiting to be processed. */
  datatype Update = Update(author: Author, text: string, at: nat)

  /** An update being processed: the snapshot it will install, and the base computed when it was started. */
  datatype InFlight = InFlight(snapshot: string, at: nat, base: string)

  datatype Tracked = Tracked(diffBase: string, unreviewed: Patch, snapshot: string, snapshotAt: nat, status: Status,
                             version: nat, queue: seq<Update>, inFlight: Option<InFlight>)

  /** The buffer, what is tracked of it, and the anchors and texts that undo the last reject. */
  datatype Log = Log(buffer: string, doc: Document, version: nat, tracked: Option<Tracked>, undo: Option<seq<Memo>>)

  // ----- what always holds

  /** The unreviewed edits take the base to the snapshot. */
  ghost predicate Reviewed(t: Tracked) {
    && Takes(t.unreviewed, Rows(t.diffBase), Rows(t.snapshot))
    && Separated(t.unreviewed) && StartInside(t.unreviewed, |Rows(t.snapshot)|)
  }

  /** The version the snapshot will be of once everything queued has been processed. */
  function Latest(t: Tracked): nat {
    if t.queue != [] then t.queue[|t.queue| - 1].at
    else if t.inFlight.Some? then t.inFlight.value.at
    else t.snapshotAt
  }

  /** `text` is what version `at` of a document, now at `version`, shows. */
  predicate IsSnapshot(doc: Document, version: nat, at: nat, text: string) {
    at <= version && TextAt(doc, at) == text
  }

  /** All snapshots of the buffer are of versions of the document. */
  predicate Snapshots(t: Tracked, doc: Document, version: nat) {
    && IsSnapshot(doc, version, t.snapshotAt, t.snapshot)
    && (t.inFlight.Some? ==> IsSnapshot(doc, version, t.inFlight.value.at, t.inFlight.value.snapshot))
    && (forall k | 0 <= k < |t.queue| :: IsSnapshot(doc, version, t.queue[k].at, t.queue[k].text))
  }

  /** What is remembered for undo lies at anchors in the document, which shows the text of the buffer. */
  predicate Anchored(s: Log) {
    && KnownBy(s.doc, s.version) && TextAt(s.doc, s.version) == s.buffer
    && (s.undo.Some? ==> MemosApart(s.undo.value, |s.doc|))
  }

  ghost predicate Inv(s: Log) {
    && Anchored(s)
    && (s.tracked.Some? ==>
          var t := s.tracked.value;
          Reviewed(t) && Snapshots(t, s.doc, s.version) && Latest(t) == s.version && t.version <= s.version)
  }

  // ----- buffer edits

  /** What the buffer does to its document to make the edits. `front` says at which of them the text goes in front of the
      deleted characters; the first is never one. */
  function ChangesFor(s: Log, edits: Splices, front: set<nat>): seq<Change> {
    ChangesOf(s.doc, s.version, Coalesced(edits), front, 0)
  }

  /** Where the anchors of memos are once the buffer has made the edits. */
  function Carried(s: Log, edits: Splices, front: set<nat>, memos: seq<Memo>): seq<Memo> {
    if Coalesced(edits) == [] then memos else CarryMemos(ChangesFor(s, edits, front), memos)
  }

  /** The buffer makes the edits at once, touching ones merged; an edit that changes nothing is none. */
  function Edited(s: Log, edits: Splices, front: set<nat>): Log
    requires InOrder(Coalesced(edits), s.buffer, 0)
  {
    var made := Coalesced(edits);
    if made == [] then s
    else s.(buffer := SpliceFrom(made, s.buffer, 0), doc := Rewritten(s.doc, ChangesFor(s, edits, front), s.version),
            version := s.version + 1,
            undo := if s.undo.None? then None else Some(Carried(s, edits, front, s.undo.value)))
  }

  // ----- tracking

  function Schedule(s: Log, author: Author): Log
    requires s.tracked.Some?
  {
    s.(tracked := Some(s.tracked.value.(queue := s.tracked.value.queue + [Update(author, s.buffer, s.version)])))
  }

  /** The `Edited` event of a buffer: a change since the tracked version is the user's. */
  function HandleEdited(s: Log): Log {
    if s.tracked.Some? && s.version > s.tracked.value.version then Schedule(s, User) else s
  }

  /** `onDisk` says whether the buffer's file exists. */
  function Track(s: Log, isCreated: bool, onDisk: bool): (r: Log)
    ensures r.tracked.Some? && r.tracked.value.version == s.version
  {
    if isCreated then
      var existing :=
        match s.tracked
        case Some(t) => (match t.status case Created(e) => e case _ => Some(t.diffBase))
        case None => if onDisk then Some(s.buffer) else None;
      s.(tracked := Some(Tracked("", [Edit(Span(0, 1), Span(0, |Rows(s.buffer)|))], s.buffer, s.version, Created(existing),
                                  s.version, [], None)))
    else if s.tracked.None? then
      s.(tracked := Some(Tracked(s.buffer, [], s.buffer, s.version, Modified, s.version, [], None)))
    else
      s.(tracked := Some(s.tracked.value.(version := s.version)))
  }

  /** The agent says it edited the buffer. */
  function BufferEdited(s: Log): Log {
    var r := Track(s, false, false);
    var t := r.tracked.value;
    Schedule(r.(tracked := Some(if t.status.Deleted? then t.(status := Modified) else t)), Agent)
  }

  function WillDelete(s: Log): Log {
    var r := Track(s, false, false);
    var t := r.tracked.value;
    match t.status
    case Created(_) => r.(tracked := None)
    case Modified =>
      Clears(r.buffer);
      HandleEdited(Schedule(Edited(r.(tracked := Some(t.(status := Deleted))), SetText(r.buffer, ""), {}), Agent))
    case Deleted => r
  }

  function SetText(t: string, text: string): Splices {
    [Splice(Span(0, |t|), text)]
  }

  lemma Clears(t: string)
    ensures forall text :: InOrder(Coalesced(SetText(t, text)), t, 0)
    ensures forall text :: SpliceFrom(Coalesced(SetText(t, text)), t, 0) == text
  {
    forall text
      ensures InOrder(Coalesced(SetText(t, text)), t, 0) && SpliceFrom(Coalesced(SetText(t, text)), t, 0) == text
    {
      assert SetText(t, text)[1..] == [];
      CoalescedInOrder(SetText(t, text), t, 0);
    }
  }

  function FileChanged(s: Log, isDeleted: bool): Log {
    if s.tracked.None? then s
    else if s.tracked.value.status.Deleted? then
      if isDeleted then s else Track(s.(tracked := None), false, false)
    else if isDeleted then s.(tracked := None) else s
  }

  // ----- processing updates

  /** The author's snapshot has been taken off the queue; the base it leaves is computed. `edits` are the character edits
      between the two snapshots. */
  ghost predicate CanStart(s: Log, edits: Patch) {
    && s.tracked.Some? && s.tracked.value.inFlight.None? && s.tracked.value.queue != []
    && Takes(edits, s.tracked.value.snapshot, s.tracked.value.queue[0].text) && Separated(edits)
  }

  ghost function RowsChanged(s: Log, edits: Patch): Patch
    requires CanStart(s, edits)
  {
    RowPatchTakes(edits, s.tracked.value.snapshot, s.tracked.value.queue[0].text);
    CoalesceAll(RowEditsOf(edits, s.tracked.value.snapshot, s.tracked.value.queue[0].text))
  }

  ghost function Rebased(s: Log, edits: Patch): string
    requires Inv(s) && CanStart(s, edits)
  {
    var t := s.tracked.value;
    RowPatchTakes(edits, t.snapshot, t.queue[0].text);
    Transport.TransportTheorem(t.unreviewed, RowsChanged(s, edits), Rows(t.diffBase), Rows(t.snapshot), Rows(t.queue[0].text));
    Flat(Apply(Transported(t.unreviewed, RowsChanged(s, edits), 0), Rows(t.diffBase), Rows(t.queue[0].text)))
  }

  ghost function StartUpdate(s: Log, edits: Patch): Log
    requires Inv(s) && CanStart(s, edits)
  {
    var t := s.tracked.value;
    var base := if t.queue[0].author.User? then Rebased(s, edits) else t.diffBase;
    s.(tracked := Some(t.(queue := t.queue[1..], inFlight := Some(InFlight(t.queue[0].text, t.queue[0].at, base)))))
  }

  /** `committed` are the row edits from the base to the committed text. */
  ghost predicate CanCommit(s: Log, committed: Patch) {
    && s.tracked.Some? && s.tracked.value.inFlight.None?
    && Separated(committed) && Proper(committed)
    && (forall k | 0 <= k < |committed| :: 0 <= committed[k].after.start)
  }

  /** The base with the hunks `f` selects folded in. */
  ghost function Accepted(t: Tracked, f: Edit -> bool): string
    requires Reviewed(t)
  {
    Accept(t.unreviewed, f, Rows(t.diffBase), Rows(t.snapshot));
    Flat(Apply(Pick(t.unreviewed, f), Rows(t.diffBase), Rows(t.snapshot)))
  }

  ghost function StartCommit(s: Log, committed: Patch, gitBase: string): Log
    requires Inv(s) && CanCommit(s, committed)
  {
    var t := s.tracked.value;
    s.(tracked := Some(t.(inFlight := Some(InFlight(t.snapshot, t.snapshotAt, Accepted(t, IsCommitted(committed, t.snapshot, gitBase)))))))
  }

  /** `hunks` is a diff of the new base and the new snapshot, empty if these are equal. */
  ghost predicate CanFinish(s: Log, hunks: Patch) {
    && s.tracked.Some? && s.tracked.value.inFlight.Some?
    && Takes(hunks, s.tracked.value.inFlight.value.base, s.tracked.value.inFlight.value.snapshot)
    && (s.tracked.value.inFlight.value.base == s.tracked.value.inFlight.value.snapshot ==> hunks == [])
    && Separated(hunks) && (forall k | 0 <= k < |hunks| :: !hunks[k].IsEmpty())
  }

  ghost function Finish(s: Log, hunks: Patch): Log
    requires CanFinish(s, hunks)
  {
    var t, f := s.tracked.value, s.tracked.value.inFlight.value;
    RowPatchTakes(hunks, f.base, f.snapshot);
    s.(tracked := Some(t.(diffBase := f.base, snapshot := f.snapshot, snapshotAt := f.at, inFlight := None,
                          unreviewed := CoalesceAll(RowEditsOf(hunks, f.base, f.snapshot)))))
  }

  // ----- accepting

  ghost function KeepRange(s: Log, rows: Span): Log
    requires Inv(s)
  {
    if s.tracked.None? then s
    else if s.tracked.value.status.Deleted? then s.(tracked := None)
    else
      var t := s.tracked.value;
      var left := Leave(t.unreviewed, Touched(rows), 0);
      Schedule(s.(tracked := Some(t.(diffBase := Accepted(t, Touched(rows)), unreviewed := left,
                                     status := if left == [] && t.status.Created? then Modified else t.status))), User)
  }

  function KeepAll(s: Log): Log {
    if s.tracked.None? then s
    else if s.tracked.value.status.Deleted? then s.(tracked := None)
    else
      var t := s.tracked.value;
      Schedule(s.(tracked := Some(t.(diffBase := t.snapshot, unreviewed := [],
                                     status := if t.status.Created? then Modified else t.status))), User)
  }

  // ----- rejecting

  function HistoryOf(s: Log): History
    requires s.tracked.Some?
  {
    History(s.doc, s.tracked.value.snapshotAt, s.version)
  }

  /** The hunks the ranges touch. */
  ghost function Rejected(s: Log, ranges: seq<Span>): (chosen: Patch)
    requires Inv(s) && s.tracked.Some?
    ensures Placed(chosen) && SeparatedAfter(chosen) && StartInside(chosen, |Rows(s.tracked.value.snapshot)|)
  {
    var t := s.tracked.value;
    TakesProper(t.unreviewed, Rows(t.diffBase), Rows(t.snapshot), 0, 0);
    var flags := Selected(ranges, HunkRows(t.unreviewed, HistoryOf(s)));
    ChoosePlaced(t.unreviewed, flags);
    ChooseAscends(t.unreviewed, flags, |Rows(t.snapshot)|);
    Choose(t.unreviewed, flags)
  }

  /** The edits that revert them. */
  ghost function Reverting(s: Log, ranges: seq<Span>): (edits: Splices)
    requires Inv(s) && s.tracked.Some?
    ensures InOrder(edits, s.buffer, 0) && InOrder(Coalesced(edits), s.buffer, 0)
  {
    var t, chosen := s.tracked.value, Rejected(s, ranges);
    EdgeOffsets(s.doc, s.version);
    RevertsInOrder(chosen, t.diffBase, HistoryOf(s), 0);
    CoalescedInOrder(Reverts(chosen, t.diffBase, HistoryOf(s)), s.buffer, 0);
    Reverts(chosen, t.diffBase, HistoryOf(s))
  }

  /** What is remembered of them. */
  ghost function Remembered(s: Log, ranges: seq<Span>): seq<Memo>
    requires Inv(s) && s.tracked.Some?
  {
    HunkMemos(Rejected(s, ranges), HistoryOf(s))
  }

  /** The state after rejecting, and what undoes it. */
  ghost function Reject(s: Log, ranges: seq<Span>, front: set<nat>): (Log, Option<seq<Memo>>)
    requires Inv(s)
  {
    if s.tracked.None? then (s, None)
    else
      var t := s.tracked.value;
      match t.status
      case Created(Some(existing)) =>
        Clears(s.buffer);
        var cleared := Edited(s, SetText(s.buffer, ""), {});
        Clears(cleared.buffer);
        var r := Edited(cleared, SetText(cleared.buffer, existing), {});
        (r.(tracked := None), Some([Memo(0, |r.doc|, s.buffer)]))
      case Created(None) => (s.(tracked := None), None)
      case Deleted =>
        Clears(s.buffer);
        (Track(Edited(s, SetText(s.buffer, t.diffBase), {}).(tracked := None), false, false), None)
      case Modified =>
        var edits := Reverting(s, ranges);
        var r := Edited(s, edits, front);
        (if r.version > s.version then HandleEdited(r) else r,
         if edits == [] then None else Some(Carried(s, edits, front, Remembered(s, ranges))))
  }

  /** Rejecting some ranges; the caller remembers what undoes it, if there is anything to undo. */
  ghost function RejectRanges(s: Log, ranges: seq<Span>, front: set<nat>): Log
    requires Inv(s)
  {
    var (r, undo) := Reject(s, ranges, front);
    if undo.Some? then r.(undo := undo) else r
  }

  /** Rejecting everything, if the diff shows any hunk (`hasEdits`). */
  ghost function RejectAll(s: Log, hasEdits: bool, front: set<nat>): Log
    requires Inv(s)
  {
    var s0 := s.(undo := None);
    if s.tracked.None? || !hasEdits then s0
    else
      var (r, undo) := Reject(s0, [Span(0, |Rows(s.buffer)| - 1)], front);
      r.(undo := undo)
  }

  /** The edits that put back what is remembered. */
  function Restoring(s: Log): (edits: Splices)
    requires s.undo.Some? && Anchored(s)
    ensures InOrder(edits, s.buffer, 0) && InOrder(Coalesced(edits), s.buffer, 0)
  {
    EdgeOffsets(s.doc, s.version);
    ResolveInOrder(s.doc, s.version, s.undo.value, 0);
    CoalescedInOrder(Resolve(s.doc, s.version, s.undo.value), s.buffer, 0);
    Resolve(s.doc, s.version, s.undo.value)
  }

  function UndoReject(s: Log, front: set<nat>): Log
    requires Anchored(s)
  {
    if s.undo.None? then s
    else
      var r := Edited(s.(undo := None), Restoring(s), front);
      if r.tracked.None? then BufferEdited(r)
      else if r.version > s.version then HandleEdited(r) else r
  }
}
