/** Permission requests of an agent's tool calls. The sender of a request is part of the status of the tool call that waits
    for it: overwriting the status drops the sender, and so cancels the request. */
module Permissions {
  import opened Options

  datatype Status = Pending | Waiting(channel: nat) | InProgress | Completed | Failed | Rejected | Canceled

  /** A status as an agent reports it. */
  datatype Reported = ReportedPending | ReportedInProgress | ReportedCompleted | ReportedFailed | ReportedOther

  datatype Entry = UserMessage(messageId: Option<nat>) | Message | ToolCall(id: nat, status: Status, hasOutput: bool)

  datatype Permission = AllowOnce | AllowAlways | RejectOnce | RejectAlways | OtherPermission

  /** How a request ended. */
  datatype Outcome = Selected(permission: Permission) | Cancelled

  datatype StopReason = EndTurn | MaxTokens | StopCancelled | Refusal | OtherReason

  /** What the task of a turn got. */
  datatype Response = Dropped | Errored | Stopped(reason: StopReason)

  /** The fields of an update. `valid` says whether its content can be converted: the status is set before that. */
  datatype Fields = Fields(status: Option<Reported>, hasOutput: bool, valid: bool)

  /** The entries, the outcome of every request made so far, and the turns. */
  datatype Thread = Thread(entries: seq<Entry>, requests: seq<Option<Outcome>>, turnId: nat, running: Option<nat>)

  function FromReported(r: Reported): Status {
    match r
    case ReportedPending => Pending
    case ReportedInProgress => InProgress
    case ReportedCompleted => Completed
    case ReportedFailed => Failed
    case ReportedOther => Pending
  }

  // ----- senders

  predicate Holds(e: Entry, c: nat) {
    e.ToolCall? && e.status == Waiting(c)
  }

  /** Dropping a status cancels the request whose sender it holds. */
  function Drop(requests: seq<Option<Outcome>>, status: Status): (r: seq<Option<Outcome>>)
    ensures |r| == |requests|
  {
    if status.Waiting? && status.channel < |requests| && requests[status.channel].None?
    then requests[status.channel := Some(Cancelled)] else requests
  }

  function DropEntry(requests: seq<Option<Outcome>>, e: Entry): (r: seq<Option<Outcome>>)
    ensures |r| == |requests|
  {
    if e.ToolCall? then Drop(requests, e.status) else requests
  }

  function DropAll(requests: seq<Option<Outcome>>, entries: seq<Entry>): (r: seq<Option<Outcome>>)
    ensures |r| == |requests|
  {
    if entries == [] then requests
    else DropEntry(DropAll(requests, entries[..|entries| - 1]), entries[|entries| - 1])
  }

  // ----- finding entries

  /** The last tool call with this id, or -1. */
  function IndexForToolCall(entries: seq<Entry>, id: nat): (i: int)
    ensures -1 <= i < |entries|
    ensures i >= 0 ==> entries[i].ToolCall? && entries[i].id == id
  {
    if entries == [] then -1
    else
      var last := |entries| - 1;
      if entries[last].ToolCall? && entries[last].id == id then last else IndexForToolCall(entries[..last], id)
  }

  function LastUserMessage(entries: seq<Entry>): (i: int)
    ensures -1 <= i < |entries|
  {
    if entries == [] then -1
    else if entries[|entries| - 1].UserMessage? then |entries| - 1
    else LastUserMessage(entries[..|entries| - 1])
  }

  /** The first user message with this id, or -1. */
  function IndexForMessage(entries: seq<Entry>, id: nat, from: nat): (i: int)
    requires from <= |entries|
    ensures -1 <= i < |entries|
    decreases |entries| - from
  {
    if from == |entries| then -1
    else if entries[from].UserMessage? && entries[from].messageId == Some(id) then from
    else IndexForMessage(entries, id, from + 1)
  }

  // ----- steps

  function SetStatus(s: Thread, i: nat, status: Status): Thread
    requires i < |s.entries| && s.entries[i].ToolCall?
  {
    s.(entries := s.entries[i := s.entries[i].(status := status)], requests := Drop(s.requests, s.entries[i].status))
  }

  function UpdateFields(s: Thread, i: nat, fields: Fields): (r: Thread)
    requires i < |s.entries| && s.entries[i].ToolCall?
    ensures |r.entries| == |s.entries| && r.entries[i].ToolCall? && |r.requests| == |s.requests|
  {
    var s1 := if fields.status.Some? then SetStatus(s, i, FromReported(fields.status.value)) else s;
    if fields.valid && fields.hasOutput then s1.(entries := s1.entries[i := s1.entries[i].(hasOutput := true)]) else s1
  }

  function Upsert(s: Thread, id: nat, fields: Fields, status: Status): Thread {
    var i := IndexForToolCall(s.entries, id);
    if i >= 0 then
      var s1 := UpdateFields(s, i, fields);
      if fields.valid then SetStatus(s1, i, status) else s1.(requests := Drop(s1.requests, status))
    else if fields.valid then s.(entries := s.entries + [ToolCall(id, status, fields.hasOutput)])
    else s.(requests := Drop(s.requests, status))
  }

  /** The new request is the last one. */
  function Request(s: Thread, id: nat, fields: Fields): Thread {
    Upsert(s.(requests := s.requests + [None]), id, fields, Waiting(|s.requests|))
  }

  function Update(s: Thread, id: nat, fields: Fields): Thread {
    var i := IndexForToolCall(s.entries, id);
    if i >= 0 then UpdateFields(s, i, fields)
    else s.(entries := s.entries + [ToolCall(id, Failed, false)])
  }

  function Permitted(p: Permission): Status {
    match p
    case RejectOnce => Rejected
    case RejectAlways => Rejected
    case _ => InProgress
  }

  /** Sends the choice, if the call waits for one. The status is overwritten in any case. */
  function Authorized(s: Thread, id: nat, p: Permission): Thread {
    var i := IndexForToolCall(s.entries, id);
    if i < 0 then s
    else
      var status := s.entries[i].status;
      s.(entries := s.entries[i := s.entries[i].(status := Permitted(p))],
         requests := if status.Waiting? && status.channel < |s.requests| && s.requests[status.channel].None?
                     then s.requests[status.channel := Some(Selected(p))] else s.requests)
  }

  function CanceledEntry(e: Entry): Entry {
    if e.ToolCall? && (e.status.Pending? || e.status.Waiting? || e.status.InProgress?) then e.(status := Canceled) else e
  }

  function CanceledEntries(entries: seq<Entry>): (r: seq<Entry>)
    ensures |r| == |entries|
  {
    seq(|entries|, i requires 0 <= i < |entries| => CanceledEntry(entries[i]))
  }

  function MarkPendingCanceled(s: Thread): Thread {
    s.(entries := CanceledEntries(s.entries), requests := DropAll(s.requests, s.entries))
  }

  function Truncate(s: Thread, i: nat): Thread
    requires i <= |s.entries|
  {
    s.(entries := s.entries[..i], requests := DropAll(s.requests, s.entries[i..]))
  }

  function Cancel(s: Thread): Thread {
    if s.running.None? then s else MarkPendingCanceled(s.(running := None))
  }

  function RunTurn(s: Thread): Thread {
    var s1 := Cancel(s);
    s1.(turnId := s1.turnId + 1, running := Some(s1.turnId + 1))
  }

  predicate IsCompleted(e: Entry) {
    e.ToolCall? && e.status.Completed? && e.hasOutput
  }

  predicate CompletedAfter(entries: seq<Entry>, i: nat) {
    exists k | i <= k < |entries| :: IsCompleted(entries[k])
  }

  /** The task of turn `turn` got its response. `planDone` says whether all of the plan has been completed. */
  function TurnEnds(s: Thread, turn: nat, response: Response, planDone: bool): Thread {
    if response.Dropped? then s
    else
      var s1 := if s.running == Some(turn) then s.(running := None) else s;
      if response.Errored? || response.reason.MaxTokens? then s1
      else if response.reason.StopCancelled? then MarkPendingCanceled(s1)
      else
        var s2 := if planDone then s1.(entries := s1.entries + [Message]) else s1;
        var u := LastUserMessage(s2.entries);
        if response.reason.Refusal? && u >= 0 && !CompletedAfter(s2.entries, u + 1) then Truncate(s2, u) else s2
  }

  function Rewind(s: Thread, messageId: nat): Thread {
    var i := IndexForMessage(s.entries, messageId, 0);
    if i >= 0 then Truncate(s, i) else s
  }

  datatype Op =
    | UpsertToolCall(id: nat, fields: Fields, reported: Reported)
    | RequestAuthorization(id: nat, fields: Fields)
    | UpdateToolCall(id: nat, fields: Fields)
    | AuthorizeToolCall(id: nat, permission: Permission)
    | PushUserMessage(messageId: Option<nat>)
    | PushMessage
    | StartTurn
    | CancelTurn
    | EndOfTurn(turn: nat, response: Response, planDone: bool)
    | RewindTo(message: nat)

  function Next(s: Thread, op: Op): Thread {
    match op
    case UpsertToolCall(id, fields, reported) => Upsert(s, id, fields, FromReported(reported))
    case RequestAuthorization(id, fields) => Request(s, id, fields)
    case UpdateToolCall(id, fields) => Update(s, id, fields)
    case AuthorizeToolCall(id, permission) => Authorized(s, id, permission)
    case PushUserMessage(messageId) => s.(entries := s.entries + [UserMessage(messageId)])
    case PushMessage => s.(entries := s.entries + [Message])
    case StartTurn => RunTurn(s)
    case CancelTurn => Cancel(s)
    case EndOfTurn(turn, response, planDone) => TurnEnds(s, turn, response, planDone)
    case RewindTo(message) => Rewind(s, message)
  }

  // ----- what always holds

  predicate UniqueIds(entries: seq<Entry>) {
    forall i, j | 0 <= i < j < |entries| && entries[i].ToolCall? && entries[j].ToolCall? :: entries[i].id != entries[j].id
  }

  /** No two entries hold the same sender. */
  ghost predicate UniqueSenders(entries: seq<Entry>) {
    forall i, j, c | 0 <= i < j < |entries| && Holds(entries[i], c) :: !Holds(entries[j], c)
  }

  predicate IsHeld(entries: seq<Entry>, c: nat) {
    exists i | 0 <= i < |entries| :: Holds(entries[i], c)
  }

  /** Exactly the requests that some entry waits for are unresolved, and perhaps the one whose sender is in hand. */
  ghost predicate Linear(entries: seq<Entry>, requests: seq<Option<Outcome>>, hand: Status) {
    && UniqueSenders(entries)
    && (forall c: nat | IsHeld(entries, c) :: c < |requests|)
    && (hand.Waiting? ==> hand.channel < |requests| && !IsHeld(entries, hand.channel))
    && (forall c | 0 <= c < |requests| :: requests[c].None? <==> IsHeld(entries, c) || hand == Waiting(c))
  }

  ghost predicate Inv(s: Thread) {
    && UniqueIds(s.entries) && Linear(s.entries, s.requests, Pending)
    && (s.running.Some? ==> s.running.value <= s.turnId)
  }

  lemma HeldAfterUpdate(entries: seq<Entry>, i: nat, e: Entry, c: nat)
    requires i < |entries| && UniqueSenders(entries)
    ensures IsHeld(entries[i := e], c) <==> Holds(e, c) || (IsHeld(entries, c) && !Holds(entries[i], c))
  {
    var n := entries[i := e];
    assert n[i] == e;
    if IsHeld(n, c) && !Holds(e, c) {
      var k :| 0 <= k < |n| && Holds(n[k], c);
      assert Holds(entries[k], c);
    }
    if IsHeld(entries, c) && !Holds(entries[i], c) {
      var k :| 0 <= k < |entries| && Holds(entries[k], c);
      assert Holds(n[k], c);
    }
  }

  /** Replacing the status of an entry: its sender is dropped or used, and the sender in hand, if any, takes its place. */
  lemma StatusReplaced(entries: seq<Entry>, requests: seq<Option<Outcome>>, i: nat, status: Status,
                       after: seq<Option<Outcome>>, outcome: Outcome)
    requires i < |entries| && entries[i].ToolCall? && Linear(entries, requests, status)
    requires after == if entries[i].status.Waiting? && entries[i].status.channel < |requests|
                      then requests[entries[i].status.channel := Some(outcome)] else requests
    ensures Linear(entries[i := entries[i].(status := status)], after, Pending)
  {
    var e := entries[i].(status := status);
    var n := entries[i := e];
    if entries[i].status.Waiting? {
      assert Holds(entries[i], entries[i].status.channel) && IsHeld(entries, entries[i].status.channel);
    }
    forall c: nat ensures IsHeld(n, c) <==> Holds(e, c) || (IsHeld(entries, c) && !Holds(entries[i], c)) {
      HeldAfterUpdate(entries, i, e, c);
    }
    forall j, k, c | 0 <= j < k < |n| && Holds(n[j], c) ensures !Holds(n[k], c) {
      assert n[j] == (if j == i then e else entries[j]) && n[k] == (if k == i then e else entries[k]);
    }
  }

  lemma SetStatusKeeps(s: Thread, i: nat, status: Status)
    requires i < |s.entries| && s.entries[i].ToolCall?
    requires UniqueIds(s.entries) && Linear(s.entries, s.requests, status)
    ensures UniqueIds(SetStatus(s, i, status).entries)
    ensures Linear(SetStatus(s, i, status).entries, SetStatus(s, i, status).requests, Pending)
  {
    if s.entries[i].status.Waiting? {
      assert Holds(s.entries[i], s.entries[i].status.channel) && IsHeld(s.entries, s.entries[i].status.channel);
    }
    StatusReplaced(s.entries, s.requests, i, status, SetStatus(s, i, status).requests, Cancelled);
  }

  /** Replacing a status while another sender is in hand. */
  lemma SetPlainStatusKeeps(s: Thread, i: nat, status: Status, hand: Status)
    requires i < |s.entries| && s.entries[i].ToolCall? && !status.Waiting?
    requires UniqueIds(s.entries) && Linear(s.entries, s.requests, hand)
    ensures UniqueIds(SetStatus(s, i, status).entries)
    ensures Linear(SetStatus(s, i, status).entries, SetStatus(s, i, status).requests, hand)
  {
    var e := s.entries[i].(status := status);
    var n := s.entries[i := e];
    if s.entries[i].status.Waiting? {
      assert Holds(s.entries[i], s.entries[i].status.channel) && IsHeld(s.entries, s.entries[i].status.channel);
    }
    forall c: nat ensures IsHeld(n, c) <==> IsHeld(s.entries, c) && !Holds(s.entries[i], c) {
      HeldAfterUpdate(s.entries, i, e, c);
    }
    forall j, k, c | 0 <= j < k < |n| && Holds(n[j], c) ensures !Holds(n[k], c) {
      assert Holds(s.entries[j], c) && (k != i ==> n[k] == s.entries[k]);
    }
  }

  lemma SetOutputKeeps(s: Thread, i: nat, hand: Status)
    requires i < |s.entries| && s.entries[i].ToolCall?
    requires UniqueIds(s.entries) && Linear(s.entries, s.requests, hand)
    ensures var n := s.entries[i := s.entries[i].(hasOutput := true)]; UniqueIds(n) && Linear(n, s.requests, hand)
  {
    var n := s.entries[i := s.entries[i].(hasOutput := true)];
    assert forall k, c: nat | 0 <= k < |n| :: Holds(n[k], c) == Holds(s.entries[k], c);
    forall c: nat ensures IsHeld(n, c) == IsHeld(s.entries, c) {
      HeldAfterUpdate(s.entries, i, n[i], c);
    }
  }

  lemma UpdateFieldsKeeps(s: Thread, i: nat, fields: Fields, hand: Status)
    requires i < |s.entries| && s.entries[i].ToolCall?
    requires UniqueIds(s.entries) && Linear(s.entries, s.requests, hand)
    ensures var r := UpdateFields(s, i, fields); UniqueIds(r.entries) && Linear(r.entries, r.requests, hand)
  {
    hide Linear, UniqueIds;
    var s1 := if fields.status.Some? then SetStatus(s, i, FromReported(fields.status.value)) else s;
    if fields.status.Some? {
      SetPlainStatusKeeps(s, i, FromReported(fields.status.value), hand);
    }
    if fields.valid && fields.hasOutput {
      SetOutputKeeps(s1, i, hand);
    }
  }

  lemma PushKeeps(entries: seq<Entry>, requests: seq<Option<Outcome>>, e: Entry)
    requires Linear(entries, requests, if e.ToolCall? then e.status else Pending)
    ensures Linear(entries + [e], requests, Pending)
  {
    var n := entries + [e];
    forall c: nat ensures IsHeld(n, c) <==> IsHeld(entries, c) || Holds(e, c) {
      if IsHeld(entries, c) {
        var k :| 0 <= k < |entries| && Holds(entries[k], c);
        assert Holds(n[k], c);
      }
      if Holds(e, c) {
        assert Holds(n[|entries|], c);
      }
    }
    forall j, k, c | 0 <= j < k < |n| && Holds(n[j], c) ensures !Holds(n[k], c) {
      assert Holds(entries[j], c) && IsHeld(entries, c);
    }
  }

  lemma {:induction false} NotFound(entries: seq<Entry>, id: nat)
    requires IndexForToolCall(entries, id) < 0
    ensures forall i | 0 <= i < |entries| && entries[i].ToolCall? :: entries[i].id != id
  {
    if entries != [] {
      NotFound(entries[..|entries| - 1], id);
      assert forall i | 0 <= i < |entries| - 1 :: entries[i] == entries[..|entries| - 1][i];
    }
  }

  lemma UpsertKeeps(s: Thread, id: nat, fields: Fields, status: Status)
    requires UniqueIds(s.entries) && Linear(s.entries, s.requests, status)
    ensures var r := Upsert(s, id, fields, status); UniqueIds(r.entries) && Linear(r.entries, r.requests, Pending)
  {
    var i := IndexForToolCall(s.entries, id);
    if i >= 0 {
      UpdateFieldsKeeps(s, i, fields, status);
      var s1 := UpdateFields(s, i, fields);
      if fields.valid {
        SetStatusKeeps(s1, i, status);
      }
    } else {
      NotFound(s.entries, id);
      if fields.valid {
        PushKeeps(s.entries, s.requests, ToolCall(id, status, fields.hasOutput));
      }
    }
  }

  // ----- dropping several entries

  /** Dropping entries cancels the requests they hold, and no others. */
  lemma {:induction false} DropAllCancels(requests: seq<Option<Outcome>>, entries: seq<Entry>, c: nat)
    requires c < |requests|
    ensures DropAll(requests, entries)[c] == if requests[c].None? && IsHeld(entries, c) then Some(Cancelled) else requests[c]
  {
    if entries != [] {
      var init, last := entries[..|entries| - 1], entries[|entries| - 1];
      DropAllCancels(requests, init, c);
      assert entries == init + [last];
      if IsHeld(init, c) {
        var k :| 0 <= k < |init| && Holds(init[k], c);
        assert Holds(entries[k], c);
      }
      if IsHeld(entries, c) && !Holds(last, c) {
        var k :| 0 <= k < |entries| && Holds(entries[k], c);
        assert Holds(init[k], c);
      }
      assert Holds(last, c) ==> Holds(entries[|entries| - 1], c);
    }
  }

  lemma TruncateKeeps(s: Thread, i: nat)
    requires i <= |s.entries| && Inv(s)
    ensures Inv(Truncate(s, i))
  {
    var kept, dropped := s.entries[..i], s.entries[i..];
    var r := DropAll(s.requests, dropped);
    forall c: nat ensures IsHeld(s.entries, c) <==> IsHeld(kept, c) || IsHeld(dropped, c) {
      if IsHeld(s.entries, c) {
        var k :| 0 <= k < |s.entries| && Holds(s.entries[k], c);
        assert if k < i then Holds(kept[k], c) else Holds(dropped[k - i], c);
      }
      if IsHeld(kept, c) {
        var k :| 0 <= k < |kept| && Holds(kept[k], c);
        assert Holds(s.entries[k], c);
      }
      if IsHeld(dropped, c) {
        var k :| 0 <= k < |dropped| && Holds(dropped[k], c);
        assert Holds(s.entries[k + i], c);
      }
    }
    forall c | 0 <= c < |r| ensures r[c].None? <==> IsHeld(kept, c) {
      DropAllCancels(s.requests, dropped, c);
      if IsHeld(kept, c) {
        var j :| 0 <= j < |kept| && Holds(kept[j], c);
        forall k | 0 <= k < |dropped| ensures !Holds(dropped[k], c) {
          assert Holds(s.entries[j], c) && dropped[k] == s.entries[k + i];
        }
      }
    }
  }

  lemma MarkKeeps(s: Thread)
    requires Inv(s)
    ensures Inv(MarkPendingCanceled(s))
    ensures forall c | 0 <= c < |s.requests| :: MarkPendingCanceled(s).requests[c].Some?
  {
    var r := MarkPendingCanceled(s);
    assert forall i, c: nat | 0 <= i < |r.entries| :: !Holds(r.entries[i], c);
    forall c | 0 <= c < |s.requests| ensures r.requests[c].Some? {
      DropAllCancels(s.requests, s.entries, c);
    }
  }

  // ----- every step and every run

  lemma PushMessageKeeps(s: Thread, e: Entry)
    requires Inv(s) && !e.ToolCall?
    ensures Inv(s.(entries := s.entries + [e]))
  {
    PushKeeps(s.entries, s.requests, e);
  }

  lemma CancelKeeps(s: Thread)
    requires Inv(s)
    ensures Inv(Cancel(s))
  {
    hide Linear;
    if s.running.Some? {
      MarkKeeps(s.(running := None));
    }
  }

  lemma TurnEndsKeeps(s: Thread, turn: nat, response: Response, planDone: bool)
    requires Inv(s)
    ensures Inv(TurnEnds(s, turn, response, planDone))
  {
    hide Linear, UniqueIds, MarkPendingCanceled, Truncate, CompletedAfter, LastUserMessage;
    if !response.Dropped? {
      var s1 := if s.running == Some(turn) then s.(running := None) else s;
      MarkKeeps(s1);
      PushMessageKeeps(s1, Message);
      var s2 := if planDone then s1.(entries := s1.entries + [Message]) else s1;
      var u := LastUserMessage(s2.entries);
      if u >= 0 {
        TruncateKeeps(s2, u);
      }
    }
  }

  lemma RequestKeeps(s: Thread, id: nat, fields: Fields)
    requires Inv(s)
    ensures Inv(Request(s, id, fields))
  {
    var s1 := s.(requests := s.requests + [None]);
    assert Linear(s1.entries, s1.requests, Waiting(|s.requests|));
    hide Linear, UniqueIds;
    UpsertKeeps(s1, id, fields, Waiting(|s.requests|));
  }

  lemma AuthorizedKeeps(s: Thread, id: nat, p: Permission)
    requires Inv(s)
    ensures Inv(Authorized(s, id, p))
  {
    var i := IndexForToolCall(s.entries, id);
    if i >= 0 {
      if s.entries[i].status.Waiting? {
        assert Holds(s.entries[i], s.entries[i].status.channel) && IsHeld(s.entries, s.entries[i].status.channel);
      }
      assert Linear(s.entries, s.requests, Permitted(p));
      StatusReplaced(s.entries, s.requests, i, Permitted(p), Authorized(s, id, p).requests, Selected(p));
    }
  }

  lemma StepKeepsInv(s: Thread, op: Op)
    requires Inv(s)
    ensures Inv(Next(s, op))
  {
    match op
    case UpsertToolCall(id, fields, reported) =>
      UpsertKeeps(s, id, fields, FromReported(reported));
    case RequestAuthorization(id, fields) => RequestKeeps(s, id, fields);
    case UpdateToolCall(id, fields) =>
      var i := IndexForToolCall(s.entries, id);
      if i >= 0 {
        UpdateFieldsKeeps(s, i, fields, Pending);
      } else {
        NotFound(s.entries, id);
        PushKeeps(s.entries, s.requests, ToolCall(id, Failed, false));
      }
    case AuthorizeToolCall(id, permission) => AuthorizedKeeps(s, id, permission);
    case PushUserMessage(messageId) => PushMessageKeeps(s, UserMessage(messageId));
    case PushMessage => PushMessageKeeps(s, Message);
    case StartTurn => CancelKeeps(s);
    case CancelTurn => CancelKeeps(s);
    case EndOfTurn(turn, response, planDone) => TurnEndsKeeps(s, turn, response, planDone);
    case RewindTo(message) =>
      var i := IndexForMessage(s.entries, message, 0);
      if i >= 0 {
        TruncateKeeps(s, i);
      }
  }

  const EMPTY := Thread([], [], 0, None)

  function Run(s: Thread, ops: seq<Op>): Thread
    decreases |ops|
  {
    if ops == [] then s else Run(Next(s, ops[0]), ops[1..])
  }

  /** In every reachable state the ids of the tool calls are distinct, and a request is unresolved exactly if one entry, and
      no other, waits for it. */
  lemma {:induction false} RunKeepsInv(s: Thread, ops: seq<Op>)
    requires Inv(s)
    ensures Inv(Run(s, ops))
    ensures forall c | 0 <= c < |Run(s, ops).requests| ::
      Run(s, ops).requests[c].None? <==> IsHeld(Run(s, ops).entries, c)
    decreases |ops|
  {
    if ops != [] {
      StepKeepsInv(s, ops[0]);
      RunKeepsInv(Next(s, ops[0]), ops[1..]);
    }
  }

  // ----- every request ends once

  /** How a step may end the request `c`. */
  predicate Ends(s: Thread, op: Op, c: nat, outcome: Outcome) {
    if op.AuthorizeToolCall? then
      var i := IndexForToolCall(s.entries, op.id);
      i >= 0 && Holds(s.entries[i], c) && outcome == Selected(op.permission)
    else outcome == Cancelled
  }

  lemma MarkEnds(s: Thread, c: nat)
    requires c < |s.requests|
    ensures s.requests[c].Some? ==> MarkPendingCanceled(s).requests[c] == s.requests[c]
    ensures s.requests[c].None? ==> MarkPendingCanceled(s).requests[c] in {None, Some(Cancelled)}
  {
    DropAllCancels(s.requests, s.entries, c);
  }

  lemma TruncateEnds(s: Thread, i: nat, c: nat)
    requires i <= |s.entries| && c < |s.requests|
    ensures s.requests[c].Some? ==> Truncate(s, i).requests[c] == s.requests[c]
    ensures s.requests[c].None? ==> Truncate(s, i).requests[c] in {None, Some(Cancelled)}
  {
    DropAllCancels(s.requests, s.entries[i..], c);
  }

  lemma UpsertEnds(s: Thread, id: nat, fields: Fields, status: Status, c: nat)
    requires c < |s.requests| && status != Waiting(c)
    ensures c < |Upsert(s, id, fields, status).requests|
    ensures s.requests[c].Some? ==> Upsert(s, id, fields, status).requests[c] == s.requests[c]
    ensures s.requests[c].None? ==> Upsert(s, id, fields, status).requests[c] in {None, Some(Cancelled)}
  {
    hide IndexForToolCall;
  }

  lemma TurnEndsEnds(s: Thread, turn: nat, response: Response, planDone: bool, c: nat)
    requires c < |s.requests|
    ensures c < |TurnEnds(s, turn, response, planDone).requests|
    ensures s.requests[c].Some? ==> TurnEnds(s, turn, response, planDone).requests[c] == s.requests[c]
    ensures s.requests[c].None? ==> TurnEnds(s, turn, response, planDone).requests[c] in {None, Some(Cancelled)}
  {
    hide DropAll, CompletedAfter, LastUserMessage, CanceledEntries;
    if !response.Dropped? {
      var s1 := if s.running == Some(turn) then s.(running := None) else s;
      var s2 := if planDone then s1.(entries := s1.entries + [Message]) else s1;
      var u := LastUserMessage(s2.entries);
      MarkEnds(s1, c);
      if u >= 0 {
        TruncateEnds(s2, u, c);
      }
    }
  }

  /** A step leaves the outcome of a request that has ended alone. A request that it ends was selected by authorizing the
      call that waits for it, or is cancelled. */
  lemma StepEnds(s: Thread, op: Op, c: nat)
    requires Inv(s) && c < |s.requests|
    ensures c < |Next(s, op).requests|
    ensures s.requests[c].Some? ==> Next(s, op).requests[c] == s.requests[c]
    ensures s.requests[c].None? && Next(s, op).requests[c].Some? ==> Ends(s, op, c, Next(s, op).requests[c].value)
  {
    hide Inv, Linear, UniqueIds, DropAll, IndexForMessage, IndexForToolCall, CanceledEntries, Upsert, TurnEnds;
    match op
    case UpsertToolCall(id, fields, reported) => UpsertEnds(s, id, fields, FromReported(reported), c);
    case RequestAuthorization(id, fields) =>
      UpsertEnds(s.(requests := s.requests + [None]), id, fields, Waiting(|s.requests|), c);
    case StartTurn => MarkEnds(s.(running := None), c);
    case CancelTurn => MarkEnds(s.(running := None), c);
    case EndOfTurn(turn, response, planDone) => TurnEndsEnds(s, turn, response, planDone, c);
    case RewindTo(message) =>
      var i := IndexForMessage(s.entries, message, 0);
      if i >= 0 {
        TruncateEnds(s, i, c);
      }
    case _ =>
  }

  /** Over a run a request that has ended keeps its outcome: it ends once. */
  lemma {:induction false} EndsOnce(s: Thread, ops: seq<Op>, c: nat)
    requires Inv(s) && c < |s.requests|
    ensures c < |Run(s, ops).requests|
    ensures s.requests[c].Some? ==> Run(s, ops).requests[c] == s.requests[c]
    decreases |ops|
  {
    if ops != [] {
      StepKeepsInv(s, ops[0]);
      StepEnds(s, ops[0], c);
      EndsOnce(Next(s, ops[0]), ops[1..], c);
    }
  }

  /** The user's choice reaches the request that the call waits for. */
  lemma AuthorizeSelects(s: Thread, id: nat, p: Permission, i: nat, c: nat)
    requires Inv(s) && i < |s.entries| && s.entries[i].ToolCall? && s.entries[i].id == id && Holds(s.entries[i], c)
    ensures c < |s.requests| && Authorized(s, id, p).requests[c] == Some(Selected(p))
    ensures Authorized(s, id, p).entries[i].status == if p.RejectOnce? || p.RejectAlways? then Rejected else InProgress
    ensures forall k | 0 <= k < |s.requests| && k != c :: Authorized(s, id, p).requests[k] == s.requests[k]
  {
    Found(s.entries, id, i);
    assert IsHeld(s.entries, c);
  }

  lemma {:induction false} Found(entries: seq<Entry>, id: nat, i: nat)
    requires UniqueIds(entries) && i < |entries| && entries[i].ToolCall? && entries[i].id == id
    ensures IndexForToolCall(entries, id) == i
  {
    var last := |entries| - 1;
    if i < last {
      assert entries[..last][i] == entries[i];
      Found(entries[..last], id, i);
    }
  }

  /** When a request survives a step that is about its own call, or about everything: only if the step fails before it
      sets a status, or does not reach it. */
  lemma SurvivesUpdates(s: Thread, id: nat, fields: Fields, reported: Reported, i: nat, c: nat)
    requires Inv(s) && i < |s.entries| && s.entries[i].ToolCall? && s.entries[i].id == id && Holds(s.entries[i], c)
    ensures c < |s.requests|
    ensures Update(s, id, fields).requests[c].None? <==> fields.status.None?
    ensures Upsert(s, id, fields, FromReported(reported)).requests[c].None? <==> fields.status.None? && !fields.valid
    ensures Request(s, id, fields).requests[c].None? <==> fields.status.None? && !fields.valid
  {
    Found(s.entries, id, i);
    assert IsHeld(s.entries, c);
  }

  predicate IsOver(status: Status) {
    status.Completed? || status.Failed? || status.Rejected? || status.Canceled?
  }

  /** A turn that is started is a new one, so the end of an earlier turn does not stop it. */
  lemma TurnsAreNew(s: Thread, earlier: nat, response: Response, planDone: bool)
    requires Inv(s) && earlier <= s.turnId
    ensures var r := RunTurn(s);
      && r.running.Some? && r.running.value > s.turnId
      && Inv(r) && TurnEnds(r, earlier, response, planDone).running == r.running
  {
    hide Linear, UniqueIds;
    StepKeepsInv(s, StartTurn);
  }

  /** Cancelling a running turn ends every request and every call that has not come to an end. */
  lemma CancelEndsAll(s: Thread)
    requires Inv(s) && s.running.Some?
    ensures forall c | 0 <= c < |s.requests| :: Cancel(s).requests[c].Some?
    ensures forall i | 0 <= i < |s.entries| && s.entries[i].ToolCall? ::
      var status, after := s.entries[i].status, Cancel(s).entries[i];
      after.ToolCall? && after.id == s.entries[i].id && after.status == if IsOver(status) then status else Canceled
  {
    MarkKeeps(s.(running := None));
  }

  /** From which entry on the end of a turn ends requests: all do if the turn was cancelled, and those from the last user
      message on if the agent refused it, unless a tool call behind that has completed. */
  function EndsFrom(entries: seq<Entry>, response: Response): (i: nat)
    ensures i <= |entries|
  {
    var u := LastUserMessage(entries);
    if response == Stopped(StopCancelled) then 0
    else if response == Stopped(Refusal) && u >= 0 && !CompletedAfter(entries, u + 1) then u
    else |entries|
  }

  predicate Waits(e: Entry) {
    e.ToolCall? && e.status.Waiting?
  }

  lemma MessageIsNoUsers(entries: seq<Entry>)
    ensures LastUserMessage(entries + [Message]) == LastUserMessage(entries)
    ensures forall i: nat :: CompletedAfter(entries + [Message], i) == CompletedAfter(entries, i)
  {
    var n := entries + [Message];
    assert n[..|n| - 1] == entries;
    forall i: nat ensures CompletedAfter(n, i) == CompletedAfter(entries, i) {
      if CompletedAfter(n, i) {
        var k :| i <= k < |n| && IsCompleted(n[k]);
        assert IsCompleted(entries[k]);
      }
      if CompletedAfter(entries, i) {
        var k :| i <= k < |entries| && IsCompleted(entries[k]);
        assert IsCompleted(n[k]);
      }
    }
  }

  lemma DropAllMessages(requests: seq<Option<Outcome>>, entries: seq<Entry>)
    ensures DropAll(requests, []) == requests && DropAll(requests, entries + [Message]) == DropAll(requests, entries)
  {
    var n := entries + [Message];
    assert n[..|n| - 1] == entries;
  }

  /** What the end of a turn does to the requests. */
  lemma TurnEndsDrops(s: Thread, turn: nat, response: Response, planDone: bool)
    ensures s.running != Some(turn) ==> TurnEnds(s, turn, response, planDone).running == s.running
    ensures TurnEnds(s, turn, response, planDone).requests == DropAll(s.requests, s.entries[EndsFrom(s.entries, response)..])
  {
    hide DropAll, LastUserMessage, CompletedAfter;
    var from := EndsFrom(s.entries, response);
    MessageIsNoUsers(s.entries);
    DropAllMessages(s.requests, s.entries[from..]);
    assert s.entries[0..] == s.entries && s.entries[|s.entries|..] == [];
    assert (s.entries + [Message])[from..] == s.entries[from..] + [Message];
  }

  /** The end of an older turn leaves the newer one running. It cancels exactly the requests held from `EndsFrom` on, and so
      leaves all requests alone exactly if nothing waits there. */
  lemma StaleEnd(s: Thread, turn: nat, response: Response, planDone: bool)
    requires Inv(s) && s.running.Some? && s.running.value != turn
    ensures TurnEnds(s, turn, response, planDone).running == s.running
    ensures var from, after := EndsFrom(s.entries, response), TurnEnds(s, turn, response, planDone).requests;
      && |after| == |s.requests|
      && (forall c | 0 <= c < |after| ::
            after[c] == if s.requests[c].None? && IsHeld(s.entries[from..], c) then Some(Cancelled) else s.requests[c])
      && (after == s.requests <==> forall k | from <= k < |s.entries| :: !Waits(s.entries[k]))
  {
    var from, after := EndsFrom(s.entries, response), TurnEnds(s, turn, response, planDone).requests;
    TurnEndsDrops(s, turn, response, planDone);
    hide LastUserMessage, CompletedAfter, EndsFrom, TurnEnds, UniqueIds, UniqueSenders;
    var held := s.entries[from..];
    forall c | 0 <= c < |after|
      ensures after[c] == if s.requests[c].None? && IsHeld(held, c) then Some(Cancelled) else s.requests[c]
    {
      DropAllCancels(s.requests, held, c);
    }
    if k :| from <= k < |s.entries| && Waits(s.entries[k]) {
      var c := s.entries[k].status.channel;
      assert Holds(s.entries[k], c) && Holds(held[k - from], c);
      assert IsHeld(s.entries, c) && IsHeld(held, c) && after[c] != s.requests[c];
    } else {
      forall c: nat ensures !IsHeld(held, c) {
        assert forall k | 0 <= k < |held| :: held[k] == s.entries[k + from];
      }
    }
  }

  /** A second message is sent while the first turn runs, and a call of the second turn asks for permission. */
  function FollowUp(): seq<Op> {
    [PushUserMessage(Some(0)), StartTurn, PushUserMessage(Some(1)), StartTurn, RequestAuthorization(7, Fields(None, false, true))]
  }

  /** A run in which the end of the older turn cancels the newer turn's request, if the older one was cancelled or refused. */
  lemma StaleEndCancels(reason: StopReason)
    requires reason.StopCancelled? || reason.Refusal?
    ensures var s := Run(EMPTY, FollowUp());
      && s.requests == [None] && s.running == Some(2)
      && var r := Next(s, EndOfTurn(1, Stopped(reason), false)); r.requests == [Some(Cancelled)] && r.running == Some(2)
  {
    hide Run, FollowUp, DropAll, TurnEnds, EndsFrom;
    FollowUpRuns();
    var s := Run(EMPTY, FollowUp());
    TurnEndsDrops(s, 1, Stopped(reason), false);
    FollowUpEnds(s.entries, reason);
    DropAllCancels(s.requests, s.entries[EndsFrom(s.entries, Stopped(reason))..], 0);
  }

  lemma FollowUpEnds(entries: seq<Entry>, reason: StopReason)
    requires reason.StopCancelled? || reason.Refusal?
    requires entries == [UserMessage(Some(0)), UserMessage(Some(1)), ToolCall(7, Waiting(0), false)]
    ensures IsHeld(entries[EndsFrom(entries, Stopped(reason))..], 0)
  {
    assert LastUserMessage(entries) == LastUserMessage(entries[..2]) == 1;
    assert !CompletedAfter(entries, 2);
    var held := entries[EndsFrom(entries, Stopped(reason))..];
    assert Holds(held[|held| - 1], 0);
  }

  lemma FollowUpRuns()
    ensures Run(EMPTY, FollowUp()) == Thread([UserMessage(Some(0)), UserMessage(Some(1)), ToolCall(7, Waiting(0), false)], [None], 2, Some(2))
  {
    var u0, u1, call := UserMessage(Some(0)), UserMessage(Some(1)), ToolCall(7, Waiting(0), false);
    var s1, s2 := Thread([u0], [], 0, None), Thread([u0], [], 1, Some(1));
    var s3, s4, s5 := Thread([u0, u1], [], 1, Some(1)), Thread([u0, u1], [], 2, Some(2)), Thread([u0, u1, call], [None], 2, Some(2));
    var ops := FollowUp();
    assert Next(EMPTY, ops[0]) == s1 && Next(s1, ops[1]) == s2 && Next(s2, ops[2]) == s3;
    assert CanceledEntries([u0, u1]) == [u0, u1];
    assert Next(s3, ops[3]) == s4;
    assert [u0, u1][..1] == [u0] && [u0][..0] == [];
    assert IndexForToolCall([u0, u1], 7) == -1;
    assert Next(s4, ops[4]) == s5;
    assert ops[1..][0] == ops[1] && ops[1..][1..] == ops[2..] && ops[2..][1..] == ops[3..] && ops[3..][1..] == ops[4..];
    assert ops[4..][1..] == [];
    assert Run(s4, ops[4..]) == s5;
    assert Run(s3, ops[3..]) == s5;
    assert Run(s2, ops[2..]) == s5;
    assert Run(s1, ops[1..]) == s5;
  }

  /** Authorizing a call that waits for nothing ends no request, but still overwrites its status: a call that has come to
      an end runs again, or is rejected. */
  lemma AuthorizeOverwrites(s: Thread, id: nat, p: Permission, i: nat)
    requires Inv(s) && i < |s.entries| && s.entries[i].ToolCall? && s.entries[i].id == id && !s.entries[i].status.Waiting?
    ensures Authorized(s, id, p).requests == s.requests
    ensures Authorized(s, id, p).entries[i].status == Permitted(p)
    ensures Authorized(s, id, p) == s <==> s.entries[i].status == Permitted(p)
  {
    Found(s.entries, id, i);
    assert s.entries[i := s.entries[i]] == s.entries;
  }

  // ----- what the agent reports

  /** The status of a call says what the agent reported of it; what it reports otherwise leaves the call pending. */
  predicate Tells(status: Status, reported: Reported) {
    && (status.InProgress? <==> reported.ReportedInProgress?) && (status.Completed? <==> reported.ReportedCompleted?)
    && (status.Failed? <==> reported.ReportedFailed?) && (status.Pending? <==> reported.ReportedPending? || reported.ReportedOther?)
  }

  predicate IsCall(entries: seq<Entry>, i: nat, id: nat) {
    i < |entries| && entries[i].ToolCall? && entries[i].id == id
  }

  /** An update changes the one call with its id to what is reported, if anything is; output, once there, stays. */
  lemma KnownCallsChange(s: Thread, id: nat, fields: Fields, reported: Reported, i: nat)
    requires Inv(s) && IsCall(s.entries, i, id)
    ensures var r := Next(s, UpdateToolCall(id, fields));
      && IsCall(r.entries, i, id) && r.entries == s.entries[i := r.entries[i]]
      && (match fields.status
          case Some(x) => Tells(r.entries[i].status, x)
          case None => r.entries[i].status == s.entries[i].status)
      && r.entries[i].hasOutput == (s.entries[i].hasOutput || (fields.valid && fields.hasOutput))
    ensures fields.valid ==>
      var r := Next(s, UpsertToolCall(id, fields, reported));
      && IsCall(r.entries, i, id) && r.entries == s.entries[i := r.entries[i]] && Tells(r.entries[i].status, reported)
      && r.entries[i].hasOutput == (s.entries[i].hasOutput || fields.hasOutput)
  {
    hide Linear, UniqueIds;
    FoundInThread(s, id, i);
  }

  lemma FoundInThread(s: Thread, id: nat, i: nat)
    requires Inv(s) && IsCall(s.entries, i, id)
    ensures IndexForToolCall(s.entries, id) == i
  {
    Found(s.entries, id, i);
  }

  /** Of a call the thread does not know, an update adds a failed one, whatever it says, and an upsert one that is as reported. */
  lemma UnknownCallsAreAdded(s: Thread, id: nat, fields: Fields, reported: Reported)
    requires forall k | 0 <= k < |s.entries| :: !IsCall(s.entries, k, id)
    ensures Next(s, UpdateToolCall(id, fields)) == s.(entries := s.entries + [ToolCall(id, Failed, false)])
    ensures var r := Next(s, UpsertToolCall(id, fields, reported));
      if fields.valid then
        && |r.entries| == |s.entries| + 1 && r == s.(entries := s.entries + [r.entries[|s.entries|]])
        && IsCall(r.entries, |s.entries|, id) && Tells(r.entries[|s.entries|].status, reported)
        && r.entries[|s.entries|].hasOutput == fields.hasOutput
      else r == s
  {
    var i := IndexForToolCall(s.entries, id);
    assert i >= 0 ==> IsCall(s.entries, i, id);
  }

  // ----- where entries are cut off

  predicate IsUsers(e: Entry, id: nat) {
    e == UserMessage(Some(id))
  }

  lemma {:induction false} FirstMessage(entries: seq<Entry>, id: nat, from: nat)
    requires from <= |entries|
    ensures var i := IndexForMessage(entries, id, from);
      if i < 0 then forall k | from <= k < |entries| :: !IsUsers(entries[k], id)
      else from <= i && IsUsers(entries[i], id) && forall k | from <= k < i :: !IsUsers(entries[k], id)
    decreases |entries| - from
  {
    if from < |entries| && !IsUsers(entries[from], id) {
      FirstMessage(entries, id, from + 1);
    }
  }

  /** Rewinding to a message removes the first user message with its id and all entries after that, and nothing if there is none;
      so no message with this id is left, and everything before the first stays. */
  lemma RewindCuts(s: Thread, id: nat, k: nat)
    ensures var r := Next(s, RewindTo(id));
      && r.entries <= s.entries && (forall j | 0 <= j < |r.entries| :: !IsUsers(r.entries[j], id))
      && (k <= |s.entries| && (k < |s.entries| ==> IsUsers(s.entries[k], id))
          && (forall j | 0 <= j < k :: !IsUsers(s.entries[j], id)) ==>
            r.entries == s.entries[..k])
  {
    FirstMessage(s.entries, id, 0);
  }

  lemma {:induction false} LastMessage(entries: seq<Entry>)
    ensures var u := LastUserMessage(entries);
      && (u >= 0 ==> entries[u].UserMessage?) && forall k | u < k < |entries| :: !entries[k].UserMessage?
  {
    if entries != [] && !entries[|entries| - 1].UserMessage? {
      LastMessage(entries[..|entries| - 1]);
    }
  }

  /** After a refusal the last user message `u` and what follows are removed, unless a completed call with output follows. */
  lemma RefusalCuts(s: Thread, turn: nat, planDone: bool, u: nat)
    requires u < |s.entries| && s.entries[u].UserMessage? && forall k | u < k < |s.entries| :: !s.entries[k].UserMessage?
    ensures var r := Next(s, EndOfTurn(turn, Stopped(Refusal), planDone));
      r.entries == if exists k | u < k < |s.entries| :: IsCompleted(s.entries[k])
                   then s.entries + (if planDone then [Message] else []) else s.entries[..u]
  {
    hide LastUserMessage;
    LastMessage(s.entries);
    MessageIsNoUsers(s.entries);
    assert (s.entries + [Message])[..u] == s.entries[..u];
    assert CompletedAfter(s.entries, u + 1) <==> exists k | u < k < |s.entries| :: IsCompleted(s.entries[k]);
  }

  /** The end of a turn otherwise removes no entry. It stops the turn if that is the running one; calls come to an end exactly
      if the turn was cancelled; a completed plan is added unless the turn failed or was cut short. */
  lemma EndOfTurnKeepsEntries(s: Thread, turn: nat, response: Response, planDone: bool)
    requires response != Stopped(Refusal)
    ensures var r := Next(s, EndOfTurn(turn, response, planDone));
      && r.turnId == s.turnId && r.running == (if s.running == Some(turn) && !response.Dropped? then None else s.running)
      && if response == Stopped(StopCancelled) then
           && |r.entries| == |s.entries|
           && forall i | 0 <= i < |s.entries| ::
                var e := s.entries[i];
                r.entries[i] == if e.ToolCall? && !IsOver(e.status) then e.(status := Canceled) else e
         else
           r.entries == s.entries + if planDone && response.Stopped? && !response.reason.MaxTokens? then [Message] else []
  {
  }

  // ----- the thread as an object

  class AcpThread {
    var entries: seq<Entry>
    var requests: seq<Option<Outcome>>
    var turnId: nat
    var running: Option<nat>

    function Abs(): Thread
      reads this
    {
      Thread(entries, requests, turnId, running)
    }

    ghost predicate Valid()
      reads this
    {
      Inv(Abs())
    }

    constructor ()
      ensures Valid() && Abs() == EMPTY
    {
      entries, requests, turnId, running := [], [], 0, None;
    }

    method Replace(i: nat, status: Status)
      requires i < |entries| && entries[i].ToolCall?
      modifies this
      ensures Abs() == SetStatus(old(Abs()), i, status)
    {
      requests := Drop(requests, entries[i].status);
      entries := entries[i := entries[i].(status := status)];
    }

    method FindToolCall(id: nat) returns (i: int)
      ensures i == IndexForToolCall(entries, id)
    {
      i := |entries| - 1;
      assert entries[..|entries|] == entries;
      while i >= 0
        invariant -1 <= i < |entries| && IndexForToolCall(entries, id) == IndexForToolCall(entries[..i + 1], id)
      {
        if entries[i].ToolCall? && entries[i].id == id {
          return;
        }
        assert entries[..i + 1][..i] == entries[..i];
        i := i - 1;
      }
    }

    method UpdateCall(i: nat, fields: Fields)
      requires i < |entries| && entries[i].ToolCall?
      modifies this
      ensures Abs() == UpdateFields(old(Abs()), i, fields)
    {
      if fields.status.Some? {
        Replace(i, FromReported(fields.status.value));
      }
      if fields.valid && fields.hasOutput {
        entries := entries[i := entries[i].(hasOutput := true)];
      }
    }

    method UpsertInner(id: nat, fields: Fields, status: Status)
      modifies this
      ensures Abs() == Upsert(old(Abs()), id, fields, status)
    {
      var i := FindToolCall(id);
      if i >= 0 {
        UpdateCall(i, fields);
        if !fields.valid {
          requests := Drop(requests, status);
          return;
        }
        Replace(i, status);
      } else {
        if !fields.valid {
          requests := Drop(requests, status);
          return;
        }
        entries := entries + [ToolCall(id, status, fields.hasOutput)];
      }
    }

    method UpsertCall(id: nat, fields: Fields, reported: Reported)
      requires Valid()
      modifies this
      ensures Valid() && Abs() == Next(old(Abs()), UpsertToolCall(id, fields, reported))
    {
      StepKeepsInv(Abs(), UpsertToolCall(id, fields, reported));
      UpsertInner(id, fields, FromReported(reported));
    }

    /** Makes a request; its outcome will be found in `requests[channel]`. */
    method RequestToolCallAuthorization(id: nat, fields: Fields) returns (channel: nat)
      requires Valid()
      modifies this
      ensures Valid() && Abs() == Next(old(Abs()), RequestAuthorization(id, fields))
      ensures channel == |old(requests)| && channel < |requests|
      ensures requests[channel] == if fields.valid then None else Some(Cancelled)
    {
      StepKeepsInv(Abs(), RequestAuthorization(id, fields));
      RequestStarts(Abs(), id, fields);
      channel := |requests|;
      requests := requests + [None];
      UpsertInner(id, fields, Waiting(channel));
    }

    method UpdateTool(id: nat, fields: Fields)
      requires Valid()
      modifies this
      ensures Valid() && Abs() == Next(old(Abs()), UpdateToolCall(id, fields))
    {
      StepKeepsInv(Abs(), UpdateToolCall(id, fields));
      var i := FindToolCall(id);
      if i >= 0 {
        UpdateCall(i, fields);
      } else {
        entries := entries + [ToolCall(id, Failed, false)];
      }
    }

    method Authorize(id: nat, permission: Permission)
      requires Valid()
      modifies this
      ensures Valid() && Abs() == Next(old(Abs()), AuthorizeToolCall(id, permission))
    {
      StepKeepsInv(Abs(), AuthorizeToolCall(id, permission));
      var i := FindToolCall(id);
      if i >= 0 {
        var status := entries[i].status;
        if status.Waiting? && status.channel < |requests| && requests[status.channel].None? {
          requests := requests[status.channel := Some(Selected(permission))];
        }
        entries := entries[i := entries[i].(status := Permitted(permission))];
      }
    }

    method MarkPendingToolsAsCanceled()
      modifies this
      ensures Abs() == MarkPendingCanceled(old(Abs()))
    {
      ghost var was, all := requests, entries;
      for i := 0 to |entries|
        invariant |entries| == |all| && turnId == old(turnId) && running == old(running)
        invariant forall k | 0 <= k < i :: entries[k] == CanceledEntry(all[k])
        invariant forall k | i <= k < |all| :: entries[k] == all[k]
        invariant requests == DropAll(was, all[..i])
      {
        assert all[..i + 1][..i] == all[..i];
        if entries[i].ToolCall? && (entries[i].status.Pending? || entries[i].status.Waiting? || entries[i].status.InProgress?) {
          Replace(i, Canceled);
        }
      }
      assert all[..|all|] == all && entries == CanceledEntries(all);
    }

    method TruncateEntries(i: nat)
      requires i <= |entries|
      modifies this
      ensures Abs() == Truncate(old(Abs()), i)
    {
      ghost var was := requests;
      for k := i to |entries|
        invariant entries == old(entries) && turnId == old(turnId) && running == old(running)
        invariant requests == DropAll(was, entries[i..k])
      {
        assert entries[i..k + 1][..k - i] == entries[i..k];
        requests := DropEntry(requests, entries[k]);
      }
      assert entries[i..|entries|] == entries[i..];
      entries := entries[..i];
    }

    method CancelRunning()
      requires Valid()
      modifies this
      ensures Valid() && Abs() == Next(old(Abs()), CancelTurn)
    {
      StepKeepsInv(Abs(), CancelTurn);
      if running.Some? {
        running := None;
        MarkPendingToolsAsCanceled();
      }
    }

    method Run()
      requires Valid()
      modifies this
      ensures Valid() && Abs() == Next(old(Abs()), StartTurn)
    {
      StepKeepsInv(Abs(), StartTurn);
      CancelRunning();
      turnId := turnId + 1;
      running := Some(turnId);
    }

    method FindLastUserMessage() returns (i: int)
      ensures i == LastUserMessage(entries)
    {
      i := |entries| - 1;
      assert entries[..|entries|] == entries;
      while i >= 0
        invariant -1 <= i < |entries| && LastUserMessage(entries) == LastUserMessage(entries[..i + 1])
      {
        if entries[i].UserMessage? {
          return;
        }
        assert entries[..i + 1][..i] == entries[..i];
        i := i - 1;
      }
    }

    method HasCompletedAfter(from: nat) returns (found: bool)
      ensures found == CompletedAfter(entries, from)
    {
      var k := from;
      while k < |entries|
        invariant from <= k
        invariant forall m | from <= m < k && m < |entries| :: !IsCompleted(entries[m])
      {
        if IsCompleted(entries[k]) {
          return true;
        }
        k := k + 1;
      }
      return false;
    }

    method HandleEndOfTurn(turn: nat, response: Response, planDone: bool)
      requires Valid()
      modifies this
      ensures Valid() && Abs() == Next(old(Abs()), EndOfTurn(turn, response, planDone))
    {
      hide Linear, UniqueIds, CompletedAfter, LastUserMessage;
      StepKeepsInv(Abs(), EndOfTurn(turn, response, planDone));
      if response.Dropped? {
        return;
      }
      if running == Some(turn) {
        running := None;
      }
      if response.Errored? || response.reason.MaxTokens? {
        return;
      }
      if response.reason.StopCancelled? {
        MarkPendingToolsAsCanceled();
        return;
      }
      if planDone {
        entries := entries + [Message];
      }
      if response.reason.Refusal? {
        var u := FindLastUserMessage();
        if u >= 0 {
          var completed := HasCompletedAfter(u + 1);
          if !completed {
            TruncateEntries(u);
          }
        }
      }
    }

    method RewindToMessage(message: nat)
      requires Valid()
      modifies this
      ensures Valid() && Abs() == Next(old(Abs()), RewindTo(message))
    {
      StepKeepsInv(Abs(), RewindTo(message));
      for i := 0 to |entries|
        invariant IndexForMessage(entries, message, 0) == IndexForMessage(entries, message, i)
        invariant Abs() == old(Abs())
      {
        if entries[i].UserMessage? && entries[i].messageId == Some(message) {
          TruncateEntries(i);
          return;
        }
      }
    }
  }

  lemma RequestStarts(s: Thread, id: nat, fields: Fields)
    requires Inv(s)
    ensures |Request(s, id, fields).requests| == |s.requests| + 1
    ensures Request(s, id, fields).requests[|s.requests|] == if fields.valid then None else Some(Cancelled)
  {
    var i := IndexForToolCall(s.entries, id);
    if i >= 0 && s.entries[i].status.Waiting? {
      assert Holds(s.entries[i], s.entries[i].status.channel) && IsHeld(s.entries, s.entries[i].status.channel);
    }
  }
}
