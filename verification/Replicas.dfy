/** Replicas over one committed log: nodes apply it in order, some catch up from a snapshot, and
    reads are answered at three levels (server/store/enforcer.go:87-142, server/store/fsm.go). */
module Replicas {
  import opened ByteStrings
  import opened Refinement
  import opened Fsm
  import opened Coherence
  import opened Snapshots
  import LineReplay

  datatype Replica = Replica(applied: nat, node: Node)

  /** The committed log, the running nodes, and the snapshots taken so far with their index. */
  datatype Cluster = Cluster(log: seq<Command>, replicas: map<Bytes, Replica>, snaps: set<(nat, Snap)>)

  datatype Event =
    | Commit(command: Command)
    | Start(id: Bytes)
    | ApplyNext(id: Bytes)
    | TakeSnapshot(id: Bytes)
    | InstallSnapshot(id: Bytes, index: nat, snap: Snap)

  const INITIAL := Cluster([], map[], {})
  const FRESH := Replica(0, EMPTY)

  /** The conditions under which a snapshot can be taken: no batch update and no panic so far, and a
      model for every namespace. */
  ghost predicate SnapshotPossible(e: Engine, scope: Policies, log: seq<Command>, r: Replica) {
    && r.applied <= |log| && AllModelled(r.node)
    && AllPermitted(e, scope, log[..r.applied]) && LineReplay.ReadsAlone(e, scope, log[..r.applied])
  }

  /** And under which it then represents its node: memory and rows agree line by line. */
  ghost predicate SnapshotSafe(e: Engine, scope: Policies, log: seq<Command>, r: Replica) {
    SnapshotPossible(e, scope, log, r) && LineReplay.InStepLines(e, scope, log[..r.applied])
  }

  /** One event; an event that is not enabled changes nothing. A snapshot is taken under the
      conditions above and installed on a node that has just started. */
  ghost function Step(e: Engine, scope: Policies, s: Cluster, ev: Event): Cluster {
    match ev
    case Commit(c) => s.(log := s.log + [c])
    case Start(id) => if id in s.replicas then s else s.(replicas := s.replicas[id := FRESH])
    case ApplyNext(id) =>
      if id in s.replicas && s.replicas[id].applied < |s.log| then
        var r := s.replicas[id];
        s.(replicas := s.replicas[id := Replica(r.applied + 1, Apply(e, r.node, s.log[r.applied]).0)])
      else s
    case TakeSnapshot(id) =>
      if id in s.replicas && SnapshotSafe(e, scope, s.log, s.replicas[id]) then
        s.(snaps := s.snaps + {(s.replicas[id].applied, Snapshot(s.replicas[id].node).value)})
      else s
    case InstallSnapshot(id, index, snap) =>
      if id in s.replicas && s.replicas[id] == FRESH && (index, snap) in s.snaps && Restore(e, EMPTY, snap).Some? then
        s.(replicas := s.replicas[id := Replica(index, Restore(e, EMPTY, snap).value)])
      else s
  }

  ghost function RunEvents(e: Engine, scope: Policies, events: seq<Event>): Cluster {
    if events == [] then INITIAL
    else Step(e, scope, RunEvents(e, scope, events[..|events| - 1]), events[|events| - 1])
  }

  // ---- the invariant ----

  /** The replica shows the state of the log prefix it has applied. */
  ghost predicate AtPrefix(e: Engine, log: seq<Command>, r: Replica) {
    r.applied <= |log| && SameView(r.node, Run(e, EMPTY, log[..r.applied]))
  }

  ghost predicate SnapAtPrefix(e: Engine, log: seq<Command>, index: nat, snap: Snap) {
    && Restore(e, EMPTY, snap).Some?
    && AtPrefix(e, log, Replica(index, Restore(e, EMPTY, snap).value))
  }

  ghost predicate Consistent(e: Engine, s: Cluster) {
    && (forall id | id in s.replicas :: AtPrefix(e, s.log, s.replicas[id]))
    && (forall x | x in s.snaps :: SnapAtPrefix(e, s.log, x.0, x.1))
  }

  lemma CommitKeeps(e: Engine, log: seq<Command>, c: Command, r: Replica)
    requires AtPrefix(e, log, r)
    ensures AtPrefix(e, log + [c], r)
  {
    assert (log + [c])[..r.applied] == log[..r.applied];
  }

  lemma ApplyKeeps(e: Engine, log: seq<Command>, r: Replica)
    requires AtPrefix(e, log, r) && r.applied < |log|
    ensures AtPrefix(e, log, Replica(r.applied + 1, Apply(e, r.node, log[r.applied]).0))
    ensures Apply(e, r.node, log[r.applied]).1 == ReplyAt(e, EMPTY, log, r.applied)
  {
    var k := r.applied;
    assert log[..k + 1][..k] == log[..k];
    ApplySameView(e, r.node, Run(e, EMPTY, log[..k]), log[k]);
  }

  lemma SnapshotOfView(e: Engine, n: Node, m: Node)
    requires SameView(n, m) && AllModelled(n)
    ensures Snapshot(n).Some? && Snapshot(m).Some?
    ensures Restore(e, EMPTY, Snapshot(n).value) == Restore(e, EMPTY, Snapshot(m).value)
  {
    var s, t := Snapshot(n).value, Snapshot(m).value;
    assert s.table == t.table && s.models == t.models;
    var rows := EMPTY.table + s.table;
    assert forall ns :: Restorable(rows, s, ns) <==> Restorable(rows, t, ns);
    var x, y := Restore(e, EMPTY, s), Restore(e, EMPTY, t);
    assert x.Some? <==> y.Some?;
    if x.Some? { assert x.value.enforcers == y.value.enforcers; }
  }

  /** A snapshot restores to the prefix it was taken at exactly when memory and rows agreed there. */
  lemma TakeExact(e: Engine, scope: Policies, log: seq<Command>, r: Replica)
    requires EngineOk(e) && NamesOk(scope.Keys) && AtPrefix(e, log, r) && SnapshotPossible(e, scope, log, r)
    ensures Snapshot(r.node).Some?
    ensures SnapAtPrefix(e, log, r.applied, Snapshot(r.node).value) <==> LineReplay.InStepLines(e, scope, log[..r.applied])
  {
    var u := log[..r.applied];
    LineReplay.SnapshotExact(e, scope, u);
    SnapshotOfView(e, r.node, Run(e, EMPTY, u));
  }

  lemma StepKeeps(e: Engine, scope: Policies, s: Cluster, ev: Event)
    requires EngineOk(e) && NamesOk(scope.Keys) && Consistent(e, s)
    ensures Consistent(e, Step(e, scope, s, ev))
  {
    match ev
    case Commit(c) => CommitConsistent(e, s, c);
    case Start(id) =>
      assert AtPrefix(e, s.log, FRESH);
      ReplicaConsistent(e, s, id, FRESH);
    case ApplyNext(id) =>
      if id in s.replicas && s.replicas[id].applied < |s.log| { NextConsistent(e, s, id); }
    case TakeSnapshot(id) =>
      if id in s.replicas && SnapshotSafe(e, scope, s.log, s.replicas[id]) {
        TakeExact(e, scope, s.log, s.replicas[id]);
        SnapConsistent(e, s, s.replicas[id].applied, Snapshot(s.replicas[id].node).value);
      }
    case InstallSnapshot(id, index, snap) =>
      if (index, snap) in s.snaps {
        assert SnapAtPrefix(e, s.log, index, snap);
        ReplicaConsistent(e, s, id, Replica(index, Restore(e, EMPTY, snap).value));
      }
  }

  lemma NextConsistent(e: Engine, s: Cluster, id: Bytes)
    requires Consistent(e, s) && id in s.replicas && s.replicas[id].applied < |s.log|
    ensures var r := s.replicas[id];
            Consistent(e, s.(replicas := s.replicas[id := Replica(r.applied + 1, Apply(e, r.node, s.log[r.applied]).0)]))
  {
    var r := s.replicas[id];
    ApplyKeeps(e, s.log, r);
    ReplicaConsistent(e, s, id, Replica(r.applied + 1, Apply(e, r.node, s.log[r.applied]).0));
  }

  lemma SnapConsistent(e: Engine, s: Cluster, index: nat, snap: Snap)
    requires Consistent(e, s) && SnapAtPrefix(e, s.log, index, snap)
    ensures Consistent(e, s.(snaps := s.snaps + {(index, snap)}))
  {}

  lemma CommitConsistent(e: Engine, s: Cluster, c: Command)
    requires Consistent(e, s)
    ensures Consistent(e, s.(log := s.log + [c]))
  {
    forall id | id in s.replicas ensures AtPrefix(e, s.log + [c], s.replicas[id]) {
      CommitKeeps(e, s.log, c, s.replicas[id]);
    }
    forall x | x in s.snaps ensures SnapAtPrefix(e, s.log + [c], x.0, x.1) {
      CommitKeeps(e, s.log, c, Replica(x.0, Restore(e, EMPTY, x.1).value));
    }
  }

  lemma ReplicaConsistent(e: Engine, s: Cluster, id: Bytes, r: Replica)
    requires Consistent(e, s) && AtPrefix(e, s.log, r)
    ensures Consistent(e, s.(replicas := s.replicas[id := r]))
  {}

  lemma {:induction false} RunConsistent(e: Engine, scope: Policies, events: seq<Event>)
    requires EngineOk(e) && NamesOk(scope.Keys)
    ensures Consistent(e, RunEvents(e, scope, events))
  {
    if events != [] {
      var k := |events| - 1;
      RunConsistent(e, scope, events[..k]);
      StepKeeps(e, scope, RunEvents(e, scope, events[..k]), events[k]);
    }
  }

  // ---- reads ----

  datatype Level = LevelNone | LevelWeak | LevelStrong

  datatype ReadReply = NotLeader | StaleRead | ThroughLog | Local(reply: Reply)

  /** Store.Enforce on a node; a strong read becomes a log entry and is answered by Apply. */
  function Enforce(e: Engine, n: Node, level: Level, freshness: int, leader: bool, sinceContact: int,
                   ns: Bytes, params: seq<Bytes>): ReadReply {
    if level.LevelStrong? then ThroughLog
    else if level.LevelWeak? && !leader then NotLeader
    else if level.LevelNone? && freshness > 0 && !leader && sinceContact > freshness then StaleRead
    else Local(Decide(e, n, ns, params))
  }

  /** What each level promises: a weak read is answered by a leader alone, a none read with a
      freshness by a leader or a node in contact within it, and nothing else is refused. */
  lemma AnsweredReads(e: Engine, n: Node, level: Level, freshness: int, leader: bool, sinceContact: int, ns: Bytes, params: seq<Bytes>)
    ensures Enforce(e, n, level, freshness, leader, sinceContact, ns, params).Local? <==>
            match level
            case LevelStrong => false
            case LevelWeak => leader
            case LevelNone => leader || freshness <= 0 || sinceContact <= freshness
  {}

  /** Main result: in every run, a none or weak read that is answered has the answer of the
      committed prefix its node has applied, and nodes at one index answer alike. */
  lemma ReadsAreCommitted(e: Engine, scope: Policies, events: seq<Event>, id: Bytes, other: Bytes,
                          level: Level, freshness: int, leader: bool, sinceContact: int, ns: Bytes, params: seq<Bytes>)
    requires EngineOk(e) && NamesOk(scope.Keys)
    requires id in RunEvents(e, scope, events).replicas && other in RunEvents(e, scope, events).replicas
    ensures var s := RunEvents(e, scope, events);
            var r, q := s.replicas[id], s.replicas[other];
            && r.applied <= |s.log|
            && (var x := Enforce(e, r.node, level, freshness, leader, sinceContact, ns, params);
                x.Local? ==> x.reply == Decide(e, Run(e, EMPTY, s.log[..r.applied]), ns, params))
            && (r.applied == q.applied ==> Decide(e, r.node, ns, params) == Decide(e, q.node, ns, params))
  {
    RunConsistent(e, scope, events);
    var s := RunEvents(e, scope, events);
    assert AtPrefix(e, s.log, s.replicas[id]) && AtPrefix(e, s.log, s.replicas[other]);
  }

  /** A strong read, on whichever node its entry is applied, has the answer of the prefix that
      ends at its own entry; and every entry gets the same reply from every node. */
  lemma StrongReadIsOwnPrefix(e: Engine, scope: Policies, events: seq<Event>, id: Bytes)
    requires EngineOk(e) && NamesOk(scope.Keys) && HasNext(RunEvents(e, scope, events), id)
    ensures OwnPrefixAnswer(e, RunEvents(e, scope, events), id)
  {
    RunConsistent(e, scope, events);
    StrongReadAt(e, RunEvents(e, scope, events), id);
  }

  ghost predicate HasNext(s: Cluster, id: Bytes) { id in s.replicas && s.replicas[id].applied < |s.log| }

  /** The node's reply to its next entry is that of the log, and for a read the decision of the
      prefix that ends with it. */
  ghost predicate OwnPrefixAnswer(e: Engine, s: Cluster, id: Bytes)
    requires HasNext(s, id)
  {
    var r := s.replicas[id];
    var k, c := r.applied, s.log[r.applied];
    && Apply(e, r.node, c).1 == ReplyAt(e, EMPTY, s.log, k)
    && (c.EnforceRequest? ==> Apply(e, r.node, c).1 == Decide(e, Run(e, EMPTY, s.log[..k + 1]), c.ns, c.params))
  }

  lemma StrongReadAt(e: Engine, s: Cluster, id: Bytes)
    requires Consistent(e, s) && HasNext(s, id)
    ensures OwnPrefixAnswer(e, s, id)
  {
    var r := s.replicas[id];
    assert AtPrefix(e, s.log, r);
    ApplyKeeps(e, s.log, r);
    OwnPrefixReply(e, s.log, r.applied);
  }

  /** A read in the log changes nothing, so its reply is that of the prefix it ends. */
  lemma OwnPrefixReply(e: Engine, log: seq<Command>, k: nat)
    requires k < |log|
    ensures log[k].EnforceRequest? ==>
              ReplyAt(e, EMPTY, log, k) == Decide(e, Run(e, EMPTY, log[..k + 1]), log[k].ns, log[k].params)
  {
    assert log[..k + 1][..k] == log[..k];
  }
}
