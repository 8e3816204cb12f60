/** The sessions of the native agent: threads are loaded once however many clients open them, and unloaded when the last
    client closes them. */
module Sessions {
  import opened Options

  type Id = nat
  type Project = nat

  datatype Session = Session(project: Project, refCount: nat)

  /** A thread being loaded. `read` says whether it has been read from the database, with the state of its project. */
  datatype Pending = Pending(project: Project, refCount: nat, read: bool)

  datatype Agent = Agent(sessions: map<Id, Session>, pending: map<Id, Pending>, projects: set<Project>)

  /** Replaying follows loading: the clients that opened the session before it was loaded get it after that. */
  datatype Op =
    | OpenThread(id: Id, project: Project)
    | LoadReads(id: Id)
    | LoadFails(id: Id)
    | LoadCompletes(id: Id)
    | ReplayEnds(id: Id, ok: bool)
    | CloseSession(id: Id)
    | NewSession(id: Id, project: Project)
    | CreateSubagent(parent: Id, id: Id)

  // ----- what the agent does

  function Register(a: Agent, id: Id, project: Project, refCount: nat): Agent {
    a.(sessions := a.sessions[id := Session(project, refCount)])
  }

  function WithProject(a: Agent, project: Project): Agent {
    a.(projects := a.projects + {project})
  }

  function Open(a: Agent, id: Id, project: Project): Agent {
    if id in a.sessions then
      a.(sessions := a.sessions[id := a.sessions[id].(refCount := a.sessions[id].refCount + 1)])
    else if id in a.pending then
      a.(pending := a.pending[id := a.pending[id].(refCount := a.pending[id].refCount + 1)])
    else a.(pending := a.pending[id := Pending(project, 1, false)])
  }

  function Close(a: Agent, id: Id): Agent {
    if id !in a.sessions || a.sessions[id].refCount == 0 then a
    else
      var session := a.sessions[id];
      if session.refCount > 1 then a.(sessions := a.sessions[id := session.(refCount := session.refCount - 1)])
      else
        var sessions := a.sessions - {id};
        a.(sessions := sessions,
           projects := if exists k | k in sessions :: sessions[k].project == session.project then a.projects
                       else a.projects - {session.project})
  }

  function Next(a: Agent, op: Op): Agent {
    match op
    case OpenThread(id, project) => Open(a, id, project)
    case LoadReads(id) =>
      if id !in a.pending then a
      else WithProject(a, a.pending[id].project).(pending := a.pending[id := a.pending[id].(read := true)])
    case LoadFails(id) => a.(pending := a.pending - {id})
    case LoadCompletes(id) =>
      if id !in a.pending then a
      else
        var p := a.pending[id];
        Register(WithProject(a, p.project), id, p.project, p.refCount).(pending := a.pending - {id})
    case ReplayEnds(id, ok) => a
    case CloseSession(id) => Close(a, id)
    case NewSession(id, project) => Register(WithProject(a, project), id, project, 1)
    case CreateSubagent(parent, id) =>
      if parent in a.sessions then Register(a, id, a.sessions[parent].project, 1) else a
  }

  // ----- what its clients have

  /** For each session: how many clients have got it, wait for it to load, wait for its replay, or were told that the replay
      failed, although the session stayed loaded. */
  datatype Clients = Clients(held: multiset<Id>, waiting: multiset<Id>, replaying: multiset<Id>, leaked: multiset<Id>)

  function ClientsNext(a: Agent, c: Clients, op: Op): Clients {
    match op
    case OpenThread(id, _) =>
      if id in a.sessions then c.(held := c.held[id := c.held[id] + 1]) else c.(waiting := c.waiting[id := c.waiting[id] + 1])
    case LoadFails(id) => c.(waiting := c.waiting[id := 0])
    case LoadCompletes(id) => c.(waiting := c.waiting[id := 0], replaying := c.replaying[id := c.replaying[id] + c.waiting[id]])
    case ReplayEnds(id, ok) =>
      var n := c.replaying[id];
      var c1 := c.(replaying := c.replaying[id := 0]);
      if ok then c1.(held := c.held[id := c.held[id] + n]) else c1.(leaked := c.leaked[id := c.leaked[id] + n])
    case CloseSession(id) => c.(held := c.held[id := if c.held[id] == 0 then 0 else c.held[id] - 1])
    case NewSession(id, _) => c.(held := c.held[id := c.held[id] + 1])
    case CreateSubagent(_, id) => c.(held := c.held[id := c.held[id] + 1])
    case _ => c
  }

  /** A load goes on as long as it is pending and can fail until the thread has been read; clients close what they have
      got; new ids are fresh. */
  predicate Enabled(a: Agent, c: Clients, op: Op) {
    match op
    case OpenThread(_, _) => true
    case LoadReads(id) => id in a.pending && !a.pending[id].read
    case LoadFails(id) => id in a.pending && !a.pending[id].read
    case LoadCompletes(id) => id in a.pending && a.pending[id].read
    case ReplayEnds(id, _) => c.replaying[id] > 0
    case CloseSession(id) => c.held[id] > 0
    case NewSession(id, _) => id !in a.sessions && id !in a.pending
    case CreateSubagent(parent, id) => parent in a.sessions && id !in a.sessions && id !in a.pending
  }

  // ----- what always holds

  predicate IsUsed(a: Agent, project: Project) {
    || (exists k | k in a.sessions :: a.sessions[k].project == project)
    || (exists k | k in a.pending :: a.pending[k].read && a.pending[k].project == project)
  }

  predicate SessionCounts(a: Agent, c: Clients, id: Id) {
    var clients := c.held[id] + c.replaying[id] + c.leaked[id];
    if id in a.sessions then a.sessions[id].refCount == clients > 0 else clients == 0
  }

  predicate PendingCounts(a: Agent, c: Clients, id: Id) {
    if id in a.pending then a.pending[id].refCount == c.waiting[id] > 0 else c.waiting[id] == 0
  }

  ghost predicate Inv(a: Agent, c: Clients) {
    && (forall id | id in a.sessions :: id !in a.pending)
    && (forall id: Id :: SessionCounts(a, c, id))
    && (forall id: Id :: PendingCounts(a, c, id))
    && (forall id | id in a.sessions :: a.sessions[id].project in a.projects)
    && (forall p | p in a.projects :: IsUsed(a, p))
  }

  lemma StillUsed(a: Agent, b: Agent, p: Project)
    requires IsUsed(a, p)
    requires forall k | k in a.sessions :: k in b.sessions && b.sessions[k].project == a.sessions[k].project
    requires forall k | k in a.pending && a.pending[k].read ::
      (k in b.pending && b.pending[k].read && b.pending[k].project == a.pending[k].project)
      || (k in b.sessions && b.sessions[k].project == a.pending[k].project)
    ensures IsUsed(b, p)
  {
    if k :| k in a.sessions && a.sessions[k].project == p {
      assert b.sessions[k].project == p;
    } else {
      var k :| k in a.pending && a.pending[k].read && a.pending[k].project == p;
      assert if k in b.pending && b.pending[k].read && b.pending[k].project == p then true else b.sessions[k].project == p;
    }
  }

  lemma ProjectsStayUsed(a: Agent, b: Agent)
    requires forall p | p in a.projects :: IsUsed(a, p)
    requires forall p | p in b.projects :: p in a.projects || IsUsed(b, p)
    requires forall k | k in a.sessions :: k in b.sessions && b.sessions[k].project == a.sessions[k].project
    requires forall k | k in a.pending && a.pending[k].read ::
      (k in b.pending && b.pending[k].read && b.pending[k].project == a.pending[k].project)
      || (k in b.sessions && b.sessions[k].project == a.pending[k].project)
    ensures forall p | p in b.projects :: IsUsed(b, p)
  {
    forall p | p in b.projects ensures IsUsed(b, p) {
      if !IsUsed(b, p) {
        StillUsed(a, b, p);
      }
    }
  }

  lemma CloseKeepsProjects(a: Agent, c: Clients, id: Id)
    requires Inv(a, c) && c.held[id] > 0
    ensures forall k | k in Close(a, id).sessions :: Close(a, id).sessions[k].project in Close(a, id).projects
    ensures forall p | p in Close(a, id).projects :: IsUsed(Close(a, id), p)
  {
    assert SessionCounts(a, c, id);
    var session, b := a.sessions[id], Close(a, id);
    if session.refCount > 1 {
      ProjectsStayUsed(a, b);
    } else {
      forall p | p in b.projects ensures IsUsed(b, p) {
        assert IsUsed(a, p);
        if p != session.project {
          if k :| k in a.sessions && a.sessions[k].project == p {
            assert k in b.sessions && b.sessions[k].project == p;
          }
        }
      }
    }
  }

  lemma StepKeepsCounts(a: Agent, c: Clients, op: Op, k: Id)
    requires SessionCounts(a, c, k) && PendingCounts(a, c, k) && Enabled(a, c, op) && !(k in a.sessions && k in a.pending)
    requires SessionCounts(a, c, op.id) && PendingCounts(a, c, op.id)
    ensures SessionCounts(Next(a, op), ClientsNext(a, c, op), k) && PendingCounts(Next(a, op), ClientsNext(a, c, op), k)
    ensures !(k in Next(a, op).sessions && k in Next(a, op).pending)
  {
  }

  lemma StepKeepsProjects(a: Agent, c: Clients, op: Op)
    requires Inv(a, c) && Enabled(a, c, op)
    ensures forall k | k in Next(a, op).sessions :: Next(a, op).sessions[k].project in Next(a, op).projects
    ensures forall p | p in Next(a, op).projects :: IsUsed(Next(a, op), p)
  {
    var b, id := Next(a, op), op.id;
    hide SessionCounts, PendingCounts;
    match op
    case CloseSession(_) => CloseKeepsProjects(a, c, id);
    case LoadReads(_) =>
      assert b.pending[id].read && b.pending[id].project == a.pending[id].project;
      ProjectsStayUsed(a, b);
    case LoadCompletes(_) =>
      assert b.sessions[id].project == a.pending[id].project;
      ProjectsStayUsed(a, b);
    case NewSession(_, project) =>
      assert b.sessions[id].project == project;
      ProjectsStayUsed(a, b);
    case _ => ProjectsStayUsed(a, b);
  }

  lemma StepKeepsInv(a: Agent, c: Clients, op: Op)
    requires Inv(a, c) && Enabled(a, c, op)
    ensures Inv(Next(a, op), ClientsNext(a, c, op))
  {
    StepKeepsProjects(a, c, op);
    hide Next, ClientsNext, IsUsed, SessionCounts, PendingCounts, Enabled;
    forall k: Id
      ensures SessionCounts(Next(a, op), ClientsNext(a, c, op), k) && PendingCounts(Next(a, op), ClientsNext(a, c, op), k)
      ensures !(k in Next(a, op).sessions && k in Next(a, op).pending)
    {
      StepKeepsCounts(a, c, op, k);
    }
  }

  // ----- runs

  const IDLE := Agent(map[], map[], {})
  const NOBODY := Clients(multiset{}, multiset{}, multiset{}, multiset{})

  /** The steps `ops` lead from `a` and `c` to `b` and `d`. */
  ghost predicate Runs(a: Agent, c: Clients, ops: seq<Op>, b: Agent, d: Clients)
    decreases |ops|
  {
    if ops == [] then a == b && c == d
    else Enabled(a, c, ops[0]) && Runs(Next(a, ops[0]), ClientsNext(a, c, ops[0]), ops[1..], b, d)
  }

  lemma {:induction false} RunKeepsInv(a: Agent, c: Clients, ops: seq<Op>, b: Agent, d: Clients)
    requires Inv(a, c) && Runs(a, c, ops, b, d)
    ensures Inv(b, d)
    decreases |ops|
  {
    if ops != [] {
      StepKeepsInv(a, c, ops[0]);
      RunKeepsInv(Next(a, ops[0]), ClientsNext(a, c, ops[0]), ops[1..], b, d);
    }
  }

  /** In every reachable state no id is both pending and loaded, a loaded session counts at least one client, its project
      state exists, and what a client has got is loaded. */
  lemma ReachableStates(ops: seq<Op>, b: Agent, d: Clients, id: Id)
    requires Runs(IDLE, NOBODY, ops, b, d)
    ensures !(id in b.sessions && id in b.pending)
    ensures id in b.sessions ==> b.sessions[id].refCount >= 1 && b.sessions[id].project in b.projects
    ensures d.held[id] > 0 ==> id in b.sessions
    ensures id in b.sessions ==> b.sessions[id].refCount == d.held[id] + d.replaying[id] + d.leaked[id]
    ensures forall p | p in b.projects :: IsUsed(b, p)
  {
    RunKeepsInv(IDLE, NOBODY, ops, b, d);
    assert SessionCounts(b, d, id);
  }

  /** Opens of a session, less its closes. */
  function Net(ops: seq<Op>, id: Id): int {
    if ops == [] then 0
    else
      Net(ops[1..], id) +
      match ops[0]
      case OpenThread(k, _) => if k == id then 1 else 0
      case NewSession(k, _) => if k == id then 1 else 0
      case CreateSubagent(_, k) => if k == id then 1 else 0
      case CloseSession(k) => if k == id then -1 else 0
      case _ => 0
  }

  function AllClients(c: Clients, id: Id): nat {
    c.held[id] + c.waiting[id] + c.replaying[id] + c.leaked[id]
  }

  lemma StepIsNet(a: Agent, c: Clients, op: Op, id: Id)
    requires Enabled(a, c, op) && op != LoadFails(id)
    ensures AllClients(ClientsNext(a, c, op), id) == AllClients(c, id) + Net([op], id)
  {
  }

  lemma NetFirst(ops: seq<Op>, id: Id)
    requires ops != []
    ensures Net(ops, id) == Net([ops[0]], id) + Net(ops[1..], id)
  {
  }

  lemma {:induction false} ClientsAreNet(a: Agent, c: Clients, ops: seq<Op>, b: Agent, d: Clients, id: Id)
    requires Runs(a, c, ops, b, d) && forall k | 0 <= k < |ops| :: ops[k] != LoadFails(id)
    ensures AllClients(d, id) == AllClients(c, id) + Net(ops, id)
    decreases |ops|
  {
    hide ClientsNext, Next, Enabled, AllClients;
    if ops != [] {
      assert ops[0] != LoadFails(id);
      StepIsNet(a, c, ops[0], id);
      NetFirst(ops, id);
      ClientsAreNet(Next(a, ops[0]), ClientsNext(a, c, ops[0]), ops[1..], b, d, id);
    }
  }

  /** Whatever the interleaving, as long as loading does not fail, the count of a session, loaded or pending, is the number
      of its opens less that of its closes, and it is there exactly if that is positive. */
  lemma CountIsOpensLessCloses(ops: seq<Op>, b: Agent, d: Clients, id: Id)
    requires Runs(IDLE, NOBODY, ops, b, d) && forall k | 0 <= k < |ops| :: ops[k] != LoadFails(id)
    ensures id in b.sessions ==> b.sessions[id].refCount == Net(ops, id)
    ensures id in b.pending ==> b.pending[id].refCount == Net(ops, id)
    ensures id in b.sessions || id in b.pending <==> Net(ops, id) > 0
  {
    RunKeepsInv(IDLE, NOBODY, ops, b, d);
    ClientsAreNet(IDLE, NOBODY, ops, b, d, id);
    assert SessionCounts(b, d, id) && PendingCounts(b, d, id);
  }

  /** A session that no client has, and none waits for, stays loaded exactly if a replay of it failed. */
  lemma OnlyFailedReplaysLeak(ops: seq<Op>, b: Agent, d: Clients, id: Id)
    requires Runs(IDLE, NOBODY, ops, b, d) && d.held[id] == 0 && d.replaying[id] == 0
    ensures id in b.sessions <==> exists k :: 0 <= k < |ops| && ops[k] == ReplayEnds(id, false)
  {
    RunKeepsInv(IDLE, NOBODY, ops, b, d);
    LeaksAreFailedReplays(IDLE, NOBODY, ops, b, d, id);
    assert SessionCounts(b, d, id);
  }

  lemma {:induction false} LeaksAreFailedReplays(a: Agent, c: Clients, ops: seq<Op>, b: Agent, d: Clients, id: Id)
    requires Runs(a, c, ops, b, d)
    ensures d.leaked[id] >= c.leaked[id]
    ensures d.leaked[id] > c.leaked[id] <==> exists k :: 0 <= k < |ops| && ops[k] == ReplayEnds(id, false)
    decreases |ops|
  {
    if ops != [] {
      LeaksAreFailedReplays(Next(a, ops[0]), ClientsNext(a, c, ops[0]), ops[1..], b, d, id);
      assert forall k | 0 <= k < |ops[1..]| :: ops[1..][k] == ops[k + 1];
      if k :| 0 <= k < |ops| && ops[k] == ReplayEnds(id, false) {
        assert k > 0 ==> ops[1..][k - 1] == ReplayEnds(id, false);
      }
    }
  }

  /** When every client has closed what it opened, nothing is loading and no replay failed, nothing is left. */
  lemma NothingLeft(ops: seq<Op>, b: Agent, d: Clients)
    requires Runs(IDLE, NOBODY, ops, b, d) && d == NOBODY
    ensures b == IDLE
  {
    RunKeepsInv(IDLE, NOBODY, ops, b, d);
    forall id: Id ensures id !in b.sessions && id !in b.pending {
      assert SessionCounts(b, d, id) && PendingCounts(b, d, id);
    }
    assert b.sessions == map[] && b.pending == map[];
    forall p: Project ensures p !in b.projects {
      assert !IsUsed(b, p);
    }
    assert b.projects == {};
  }

  /** A session has the project it was opened or made with, a subagent's that of its parent, and keeps it. */
  lemma ProjectsAreKept(a: Agent, c: Clients, op: Op, k: Id)
    requires Inv(a, c) && Enabled(a, c, op)
    ensures var b := Next(a, op);
      && (k in b.sessions && k in a.sessions ==> b.sessions[k].project == a.sessions[k].project)
      && (k in b.sessions && k in a.pending ==> op == LoadCompletes(k) && b.sessions[k].project == a.pending[k].project)
      && (k in b.sessions && k !in a.sessions && k !in a.pending ==>
            || op == NewSession(k, b.sessions[k].project)
            || (op.CreateSubagent? && op.id == k && op.parent in a.sessions && b.sessions[k].project == a.sessions[op.parent].project))
      && (k in b.pending && k in a.pending ==> b.pending[k].project == a.pending[k].project)
      && (k in b.pending && k !in a.pending ==> op == OpenThread(k, b.pending[k].project) && k !in a.sessions)
  {
  }

  // ----- the agent as an object

  class NativeAgent {
    var sessions: map<Id, Session>
    var pendingSessions: map<Id, Pending>
    var projects: set<Project>

    /** What the clients have. */
    ghost var clients: Clients

    function Abs(): Agent
      reads this
    {
      Agent(sessions, pendingSessions, projects)
    }

    ghost predicate Valid()
      reads this
    {
      Inv(Abs(), clients)
    }

    /** The step `op` leads from `a` and `c` to what the agent and its clients have. */
    ghost predicate Follows(a: Agent, c: Clients, op: Op)
      reads this
    {
      Abs() == Next(a, op) && clients == ClientsNext(a, c, op)
    }

    constructor ()
      ensures Valid() && Abs() == IDLE && clients == NOBODY
    {
      sessions, pendingSessions, projects, clients := map[], map[], {}, NOBODY;
    }

    method GetOrCreateProjectState(project: Project)
      modifies this`projects
      ensures Abs() == WithProject(old(Abs()), project)
    {
      if project in projects {
        assert projects + {project} == projects;
        return;
      }
      projects := projects + {project};
    }

    method RegisterSession(id: Id, project: Project, refCount: nat)
      modifies this`sessions
      ensures Abs() == Register(old(Abs()), id, project, refCount)
    {
      sessions := sessions[id := Session(project, refCount)];
    }

    /** `loaded` says whether the client gets the session at once. */
    method OpenThread(id: Id, project: Project) returns (loaded: bool)
      requires Valid()
      modifies this
      ensures Valid() && Follows(old(Abs()), old(clients), Op.OpenThread(id, project)) && loaded == (id in old(sessions))
    {
      hide Inv;
      StepKeepsInv(Abs(), clients, Op.OpenThread(id, project));
      clients := ClientsNext(Abs(), clients, Op.OpenThread(id, project));
      if id in sessions {
        sessions := sessions[id := sessions[id].(refCount := sessions[id].refCount + 1)];
        return true;
      }
      if id in pendingSessions {
        pendingSessions := pendingSessions[id := pendingSessions[id].(refCount := pendingSessions[id].refCount + 1)];
        return false;
      }
      pendingSessions := pendingSessions[id := Pending(project, 1, false)];
      return false;
    }

    /** The load of a pending session has read the thread. */
    method LoadThread(id: Id)
      requires Valid() && id in pendingSessions && !pendingSessions[id].read
      modifies this
      ensures Valid() && Follows(old(Abs()), old(clients), LoadReads(id))
    {
      hide Inv;
      StepKeepsInv(Abs(), clients, LoadReads(id));
      GetOrCreateProjectState(pendingSessions[id].project);
      pendingSessions := pendingSessions[id := pendingSessions[id].(read := true)];
    }

    method LoadFailed(id: Id)
      requires Valid() && id in pendingSessions && !pendingSessions[id].read
      modifies this
      ensures Valid() && Follows(old(Abs()), old(clients), LoadFails(id))
    {
      hide Inv;
      StepKeepsInv(Abs(), clients, LoadFails(id));
      clients := ClientsNext(Abs(), clients, LoadFails(id));
      pendingSessions := pendingSessions - {id};
    }

    method LoadCompleted(id: Id)
      requires Valid() && id in pendingSessions && pendingSessions[id].read
      modifies this
      ensures Valid() && Follows(old(Abs()), old(clients), LoadCompletes(id))
    {
      hide Inv;
      StepKeepsInv(Abs(), clients, LoadCompletes(id));
      clients := ClientsNext(Abs(), clients, LoadCompletes(id));
      var pending := pendingSessions[id];
      GetOrCreateProjectState(pending.project);
      pendingSessions := pendingSessions - {id};
      RegisterSession(id, pending.project, pending.refCount);
    }

    /** The replay of a loaded session is over; if it failed, the clients that waited for it do not get the session. */
    method ReplayEnded(id: Id, ok: bool)
      requires Valid() && clients.replaying[id] > 0
      modifies this
      ensures Valid() && Follows(old(Abs()), old(clients), ReplayEnds(id, ok))
    {
      hide Inv;
      StepKeepsInv(Abs(), clients, ReplayEnds(id, ok));
      clients := ClientsNext(Abs(), clients, ReplayEnds(id, ok));
    }

    method NewSession(id: Id, project: Project)
      requires Valid() && id !in sessions && id !in pendingSessions
      modifies this
      ensures Valid() && Follows(old(Abs()), old(clients), Op.NewSession(id, project))
    {
      hide Inv;
      StepKeepsInv(Abs(), clients, Op.NewSession(id, project));
      clients := ClientsNext(Abs(), clients, Op.NewSession(id, project));
      GetOrCreateProjectState(project);
      RegisterSession(id, project, 1);
    }

    /** Fails if the parent is not loaded. */
    method CreateSubagentThread(parent: Id, id: Id) returns (ok: bool)
      requires Valid() && id !in sessions && id !in pendingSessions
      modifies this
      ensures Valid() && ok == (parent in old(sessions))
      ensures if ok then Follows(old(Abs()), old(clients), CreateSubagent(parent, id))
              else Abs() == old(Abs()) && clients == old(clients)
    {
      hide Inv;
      if parent !in sessions {
        return false;
      }
      StepKeepsInv(Abs(), clients, CreateSubagent(parent, id));
      clients := ClientsNext(Abs(), clients, CreateSubagent(parent, id));
      RegisterSession(id, sessions[parent].project, 1);
      return true;
    }

    method HasSessionOf(project: Project) returns (has: bool)
      ensures has <==> exists k :: k in sessions && sessions[k].project == project
    {
      has := false;
      var others := sessions.Keys;
      while others != {} && !has
        invariant others <= sessions.Keys
        invariant has ==> exists k :: k in sessions && sessions[k].project == project
        invariant !has ==> forall k | k in sessions && k !in others :: sessions[k].project != project
        decreases |others|
      {
        var k :| k in others;
        if sessions[k].project == project {
          has := true;
        }
        others := others - {k};
      }
    }

    /** Closing a session that is not loaded does nothing. */
    method CloseSession(id: Id)
      requires Valid() && (id in sessions ==> clients.held[id] > 0)
      modifies this
      ensures Valid() && Follows(old(Abs()), old(clients), Op.CloseSession(id))
    {
      CloseKeeps(Abs(), clients, id);
      hide Inv;
      clients := ClientsNext(Abs(), clients, Op.CloseSession(id));
      if id !in sessions {
        return;
      }
      var session := sessions[id].(refCount := sessions[id].refCount - 1);
      sessions := sessions[id := session];
      if session.refCount > 0 {
        return;
      }
      sessions := sessions - {id};
      assert sessions == old(sessions) - {id};
      var hasRemaining := HasSessionOf(session.project);
      if !hasRemaining {
        projects := projects - {session.project};
      }
    }
  }

  lemma CloseKeeps(a: Agent, c: Clients, id: Id)
    requires Inv(a, c) && (id in a.sessions ==> c.held[id] > 0)
    ensures Inv(Next(a, Op.CloseSession(id)), ClientsNext(a, c, Op.CloseSession(id)))
    ensures id in a.sessions ==> a.sessions[id].refCount > 0
  {
    assert SessionCounts(a, c, id);
    if id in a.sessions {
      StepKeepsInv(a, c, Op.CloseSession(id));
    } else {
      assert c.held[id := 0] == c.held;
    }
  }
}
