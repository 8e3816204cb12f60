/** Connections to agents. An attempt to connect outlives the entry it was made for: its completion and the notice of a
    new version look whether the entry is still the one in the map. */
module Connections {
  import opened Options

  datatype Key = NativeAgent | Custom(id: nat) | Stub

  datatype EntryState = Connecting | Connected(connection: nat) | Failed(error: nat)

  datatype Outcome = Success(connection: nat) | Failure(error: nat)

  /** An attempt, and the entry made for it: the number of the attempt is the identity of the entry. `alive` says whether
      anything still refers to the entry, `outcome` how the attempt ended, and `watching` whether a notice of a new version
      may still come. */
  datatype Attempt = Attempt(key: Key, entry: EntryState, alive: bool, outcome: Option<Outcome>, watching: bool)

  datatype Store = Store(entries: map<Key, nat>, attempts: seq<Attempt>)

  datatype Op =
    | RequestConnection(key: Key)
    | RestartConnection(key: Key)
    | Completes(attempt: nat, outcome: Outcome)
    | NewVersion(attempt: nat)
    | ServersUpdated(servers: set<nat>)
    | EntryReleased(attempt: nat)

  // ----- steps

  function Get(s: Store, key: Key): Option<nat> {
    if key in s.entries then Some(s.entries[key]) else None
  }

  function Upgrade(s: Store, a: nat): Option<nat>
    requires a < |s.attempts|
  {
    if s.attempts[a].alive then Some(a) else None
  }

  /** The guard of the callbacks. Where both the entry and the reference to it are gone, it lets them pass, too. */
  predicate Passes(s: Store, a: nat)
    requires a < |s.attempts|
  {
    Get(s, s.attempts[a].key) == Upgrade(s, a)
  }

  function Request(s: Store, key: Key): Store {
    if key in s.entries then s
    else Store(s.entries[key := |s.attempts|], s.attempts + [Attempt(key, Connecting, true, None, true)])
  }

  function Restart(s: Store, key: Key): Store {
    if key in s.entries && s.entries[key] < |s.attempts| && s.attempts[s.entries[key]].entry.Connecting? then s
    else Request(s.(entries := s.entries - {key}), key)
  }

  function EntryAfter(outcome: Outcome): EntryState {
    match outcome
    case Success(c) => Connected(c)
    case Failure(e) => Failed(e)
  }

  function Complete(s: Store, a: nat, outcome: Outcome): Store
    requires a < |s.attempts|
  {
    var attempt := s.attempts[a].(outcome := Some(outcome));
    if !Passes(s, a) then s.(attempts := s.attempts[a := attempt])
    else
      var updated := if attempt.alive && attempt.entry.Connecting? then attempt.(entry := EntryAfter(outcome)) else attempt;
      Store(if outcome.Failure? then s.entries - {attempt.key} else s.entries, s.attempts[a := updated])
  }

  function HandleNewVersion(s: Store, a: nat): Store
    requires a < |s.attempts|
  {
    var attempt := s.attempts[a].(watching := false);
    Store(if Passes(s, a) then s.entries - {attempt.key} else s.entries, s.attempts[a := attempt])
  }

  predicate IsServed(key: Key, servers: set<nat>) {
    key.Custom? ==> key.id in servers
  }

  function UpdateServers(s: Store, servers: set<nat>): Store {
    s.(entries := map k | k in s.entries && IsServed(k, servers) :: s.entries[k])
  }

  /** An attempt completes once, and there is at most one notice of a new version; what the map refers to is not released. */
  predicate Enabled(s: Store, op: Op) {
    match op
    case Completes(a, _) => a < |s.attempts| && s.attempts[a].outcome.None?
    case NewVersion(a) => a < |s.attempts| && s.attempts[a].watching
    case EntryReleased(a) => a < |s.attempts| && Get(s, s.attempts[a].key) != Some(a)
    case _ => true
  }

  function Next(s: Store, op: Op): Store
    requires Enabled(s, op)
  {
    match op
    case RequestConnection(key) => Request(s, key)
    case RestartConnection(key) => Restart(s, key)
    case Completes(a, outcome) => Complete(s, a, outcome)
    case NewVersion(a) => HandleNewVersion(s, a)
    case ServersUpdated(servers) => UpdateServers(s, servers)
    case EntryReleased(a) => s.(attempts := s.attempts[a := s.attempts[a].(alive := false)])
  }

  // ----- what always holds

  /** The entry in the map was made by the last attempt for its key, it is no error, it is connecting exactly as long as
      its attempt has not ended, and if it is connected, then to what its own attempt got. */
  predicate EntryInv(s: Store, key: Key)
    requires key in s.entries
  {
    var a := s.entries[key];
    && a < |s.attempts| && s.attempts[a].key == key && s.attempts[a].alive
    && (forall b | a < b < |s.attempts| :: s.attempts[b].key != key)
    && (s.attempts[a].entry.Connecting? <==> s.attempts[a].outcome.None?)
    && !s.attempts[a].entry.Failed?
  }

  /** An entry, in the map or not, has nothing but what its own attempt got. */
  predicate AttemptInv(t: Attempt) {
    t.entry.Connecting? || (t.outcome.Some? && t.entry == EntryAfter(t.outcome.value))
  }

  predicate Inv(s: Store) {
    && (forall key | key in s.entries :: EntryInv(s, key))
    && (forall a | 0 <= a < |s.attempts| :: AttemptInv(s.attempts[a]))
  }

  lemma RequestKeeps(s: Store, key: Key)
    requires Inv(s)
    ensures Inv(Request(s, key))
  {
    var r := Request(s, key);
    if key !in s.entries {
      forall k | k in r.entries ensures EntryInv(r, k) {
        if k != key {
          assert EntryInv(s, k);
        }
      }
    }
  }

  lemma RemoveKeeps(s: Store, keys: set<Key>)
    requires Inv(s)
    ensures Inv(s.(entries := s.entries - keys))
  {
    var r := s.(entries := s.entries - keys);
    forall k | k in r.entries ensures EntryInv(r, k) {
      assert EntryInv(s, k);
    }
  }

  /** Changing an attempt whose entry is not in the map, or is taken out of it. */
  lemma ChangeKeeps(s: Store, entries: map<Key, nat>, a: nat, t: Attempt)
    requires Inv(s) && a < |s.attempts| && t.key == s.attempts[a].key && AttemptInv(t)
    requires forall k | k in entries :: k in s.entries && entries[k] == s.entries[k] && entries[k] != a
    ensures Inv(Store(entries, s.attempts[a := t]))
  {
    var r := Store(entries, s.attempts[a := t]);
    forall k | k in entries ensures EntryInv(r, k) {
      assert EntryInv(s, k);
    }
  }

  lemma CompleteKeeps(s: Store, a: nat, outcome: Outcome)
    requires Inv(s) && a < |s.attempts| && s.attempts[a].outcome.None?
    ensures Inv(Complete(s, a, outcome))
  {
    var r, key := Complete(s, a, outcome), s.attempts[a].key;
    assert AttemptInv(s.attempts[a]);
    if Get(s, key) == Some(a) && outcome.Success? {
      forall k | k in r.entries ensures EntryInv(r, k) {
        assert EntryInv(s, k);
      }
    } else {
      forall k | k in r.entries ensures k in s.entries && r.entries[k] == s.entries[k] && r.entries[k] != a {
        assert EntryInv(s, k);
      }
      ChangeKeeps(s, r.entries, a, r.attempts[a]);
    }
  }

  lemma NewVersionKeeps(s: Store, a: nat)
    requires Inv(s) && a < |s.attempts|
    ensures Inv(HandleNewVersion(s, a))
  {
    var r := HandleNewVersion(s, a);
    assert AttemptInv(s.attempts[a]);
    forall k | k in r.entries ensures k in s.entries && r.entries[k] == s.entries[k] && r.entries[k] != a {
      assert EntryInv(s, k);
    }
    ChangeKeeps(s, r.entries, a, r.attempts[a]);
  }

  lemma StepKeepsInv(s: Store, op: Op)
    requires Inv(s) && Enabled(s, op)
    ensures Inv(Next(s, op))
  {
    hide EntryInv, AttemptInv, Inv;
    match op
    case RequestConnection(key) => RequestKeeps(s, key);
    case RestartConnection(key) =>
      RemoveKeeps(s, {key});
      RequestKeeps(s.(entries := s.entries - {key}), key);
    case Completes(a, outcome) => CompleteKeeps(s, a, outcome);
    case NewVersion(a) => NewVersionKeeps(s, a);
    case ServersUpdated(servers) =>
      var gone := set k | k in s.entries && !IsServed(k, servers);
      assert UpdateServers(s, servers).entries == s.entries - gone;
      RemoveKeeps(s, gone);
    case EntryReleased(a) => ReleaseKeeps(s, a);
  }

  lemma ReleaseKeeps(s: Store, a: nat)
    requires Inv(s) && Enabled(s, EntryReleased(a))
    ensures Inv(Next(s, EntryReleased(a)))
  {
    assert AttemptInv(s.attempts[a]);
    forall k | k in s.entries ensures s.entries[k] != a {
      assert EntryInv(s, k);
    }
    ChangeKeeps(s, s.entries, a, s.attempts[a].(alive := false));
  }

  const EMPTY := Store(map[], [])

  ghost predicate Runs(s: Store, ops: seq<Op>, t: Store)
    decreases |ops|
  {
    if ops == [] then s == t else Enabled(s, ops[0]) && Runs(Next(s, ops[0]), ops[1..], t)
  }

  lemma {:induction false} RunKeepsInv(s: Store, ops: seq<Op>, t: Store)
    requires Inv(s) && Runs(s, ops, t)
    ensures Inv(t)
    decreases |ops|
  {
    if ops != [] {
      StepKeepsInv(s, ops[0]);
      RunKeepsInv(Next(s, ops[0]), ops[1..], t);
    }
  }

  /** In every reachable state the map holds no error; a connecting entry has an attempt that has yet to end, and that is
      its own; and a connected entry holds what its own attempt got. */
  lemma ReachableEntries(ops: seq<Op>, t: Store, key: Key)
    requires Runs(EMPTY, ops, t) && key in t.entries
    ensures var a := t.entries[key];
      && a < |t.attempts| && t.attempts[a].key == key
      && (match t.attempts[a].entry
          case Failed(_) => false
          case Connecting => t.attempts[a].outcome.None?
          case Connected(c) => t.attempts[a].outcome == Some(Success(c)))
      && forall k | k in t.entries && k != key :: t.entries[k] != a
  {
    RunKeepsInv(EMPTY, ops, t);
    assert EntryInv(t, key);
    assert AttemptInv(t.attempts[t.entries[key]]);
    forall k | k in t.entries && k != key ensures t.entries[k] != t.entries[key] {
      assert EntryInv(t, k);
    }
  }

  // ----- stale attempts

  /** An attempt whose entry is no longer in the map, be it removed, replaced or even gone, changes neither the map nor any
      entry, its own included; it only ends. */
  lemma StaleAttemptsChangeNothing(s: Store, a: nat, outcome: Outcome)
    requires Inv(s) && a < |s.attempts| && Get(s, s.attempts[a].key) != Some(a)
    ensures Complete(s, a, outcome) == s.(attempts := s.attempts[a := s.attempts[a].(outcome := Some(outcome))])
    ensures HandleNewVersion(s, a) == s.(attempts := s.attempts[a := s.attempts[a].(watching := false)])
  {
    if Passes(s, a) {
      assert s.entries - {s.attempts[a].key} == s.entries;
    }
  }

  /** The attempt whose entry is in the map sets it, or takes it out of the map, and changes no other. */
  lemma CurrentAttemptsSetTheirEntry(s: Store, a: nat, outcome: Outcome)
    requires Inv(s) && a < |s.attempts| && s.attempts[a].outcome.None? && Get(s, s.attempts[a].key) == Some(a)
    ensures var r := Complete(s, a, outcome);
      && (outcome.Success? ==> r.entries == s.entries && r.attempts[a].entry == Connected(outcome.connection))
      && (outcome.Failure? ==> r.entries == s.entries - {s.attempts[a].key} && r.attempts[a].entry == Failed(outcome.error))
      && (forall b | 0 <= b < |s.attempts| && b != a :: r.attempts[b] == s.attempts[b])
    ensures HandleNewVersion(s, a).entries == s.entries - {s.attempts[a].key}
  {
    assert EntryInv(s, s.attempts[a].key);
  }

  /** Once an entry has left the map, no step brings it back or changes it: in particular an entry that was connecting when
      it was removed stays so, although its attempt ends. */
  lemma RemovedEntriesStay(s: Store, op: Op, a: nat)
    requires Inv(s) && Enabled(s, op) && a < |s.attempts| && Get(s, s.attempts[a].key) != Some(a)
    ensures a < |Next(s, op).attempts| && Next(s, op).attempts[a].entry == s.attempts[a].entry
    ensures Next(s, op).attempts[a].key == s.attempts[a].key && Get(Next(s, op), s.attempts[a].key) != Some(a)
  {
    if op.Completes? && op.attempt == a {
      StaleAttemptsChangeNothing(s, a, op.outcome);
    }
  }

  lemma {:induction false} RemovedForGood(s: Store, ops: seq<Op>, t: Store, a: nat)
    requires Inv(s) && Runs(s, ops, t) && a < |s.attempts| && Get(s, s.attempts[a].key) != Some(a)
    ensures a < |t.attempts| && t.attempts[a].entry == s.attempts[a].entry && Get(t, s.attempts[a].key) != Some(a)
    decreases |ops|
  {
    if ops != [] {
      StepKeepsInv(s, ops[0]);
      RemovedEntriesStay(s, ops[0], a);
      RemovedForGood(Next(s, ops[0]), ops[1..], t, a);
    }
  }

  /** Restarting leaves an attempt that is still connecting alone, and replaces anything else by a new attempt. */
  lemma RestartReplaces(s: Store, key: Key)
    requires Inv(s)
    ensures var r := Restart(s, key);
      && key in r.entries && r.entries[key] < |r.attempts| && r.attempts[r.entries[key]].entry.Connecting?
      && (r == s <==> key in s.entries && s.attempts[s.entries[key]].entry.Connecting?)
      && (r != s ==> r.entries[key] == |s.attempts|)
  {
    if key in s.entries {
      assert EntryInv(s, key);
    }
  }

  /** When the servers change, exactly the entries of custom agents that are no longer configured are removed. So a later
      request of an agent gets the entry it had, or a new attempt if the agent had none or was removed. */
  lemma ConfiguredAgentsStay(s: Store, servers: set<nat>, key: Key)
    ensures var r := Next(s, ServersUpdated(servers));
      var stays := key in s.entries && (forall id :: key == Custom(id) ==> id in servers);
      && r.attempts == s.attempts && (key in r.entries <==> stays)
      && var requested := Next(r, RequestConnection(key));
         key in requested.entries && requested.entries[key] == if stays then s.entries[key] else |s.attempts|
  {
    assert key.Custom? ==> key == Custom(key.id);
  }

  // ----- the store as an object

  class AgentConnectionStore {
    var entries: map<Key, nat>
    var attempts: seq<Attempt>

    function Abs(): Store
      reads this
    {
      Store(entries, attempts)
    }

    predicate Valid()
      reads this
    {
      Inv(Abs())
    }

    constructor ()
      ensures Valid() && Abs() == EMPTY
    {
      entries, attempts := map[], [];
    }

    method RequestConnection(key: Key) returns (entry: nat)
      requires Valid()
      modifies this
      ensures Valid() && Abs() == Next(old(Abs()), Op.RequestConnection(key))
      ensures key in entries && entry == entries[key] && (key in old(entries) ==> entry == old(entries[key]))
    {
      StepKeepsInv(Abs(), Op.RequestConnection(key));
      if key in entries {
        return entries[key];
      }
      entry := |attempts|;
      attempts := attempts + [Attempt(key, Connecting, true, None, true)];
      entries := entries[key := entry];
    }

    method RestartConnection(key: Key) returns (entry: nat)
      requires Valid()
      modifies this
      ensures Valid() && Abs() == Next(old(Abs()), Op.RestartConnection(key))
      ensures key in entries && entry == entries[key]
    {
      if key in entries {
        assert EntryInv(Abs(), key);
        if attempts[entries[key]].entry.Connecting? {
          return entries[key];
        }
      }
      RemoveKeeps(Abs(), {key});
      entries := entries - {key};
      entry := RequestConnection(key);
    }

    predicate IsCurrent(a: nat)
      requires a < |attempts|
      reads this
    {
      Passes(Abs(), a)
    }

    method HandleCompletion(a: nat, outcome: Outcome)
      requires Valid() && Enabled(Abs(), Completes(a, outcome))
      modifies this
      ensures Valid() && Abs() == Next(old(Abs()), Completes(a, outcome))
    {
      hide Inv;
      StepKeepsInv(Abs(), Completes(a, outcome));
      var current, key := IsCurrent(a), attempts[a].key;
      attempts := attempts[a := attempts[a].(outcome := Some(outcome))];
      if !current {
        return;
      }
      if attempts[a].alive && attempts[a].entry.Connecting? {
        attempts := attempts[a := attempts[a].(entry := EntryAfter(outcome))];
        assert attempts == old(attempts)[a := attempts[a]];
      }
      if outcome.Failure? {
        entries := entries - {key};
      }
    }

    method HandleVersion(a: nat)
      requires Valid() && Enabled(Abs(), NewVersion(a))
      modifies this
      ensures Valid() && Abs() == Next(old(Abs()), NewVersion(a))
    {
      StepKeepsInv(Abs(), NewVersion(a));
      var current, key := IsCurrent(a), attempts[a].key;
      attempts := attempts[a := attempts[a].(watching := false)];
      if current {
        entries := entries - {key};
      }
    }

    method HandleAgentServersUpdated(servers: set<nat>)
      requires Valid()
      modifies this
      ensures Valid() && Abs() == Next(old(Abs()), ServersUpdated(servers))
    {
      StepKeepsInv(Abs(), ServersUpdated(servers));
      entries := map k | k in entries && IsServed(k, servers) :: entries[k];
    }
  }
}
