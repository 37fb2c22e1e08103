/** Taking a snapshot, restoring it into an empty node and going on commutes with applying the
    log (server/store/fsm.go:315-455). */
module Snapshots {
  import opened ByteStrings
  import opened Keys
  import opened Badger
  import opened Refinement
  import opened Fsm
  import opened Coherence

  /** Rows, enforcers and therefore everything a reply can show; metadata is not part of it. */
  ghost predicate SameView(n: Node, m: Node) {
    n.table == m.table && n.enforcers == m.enforcers
  }

  ghost predicate AllModelled(n: Node) {
    forall ns | ns in n.enforcers :: n.enforcers[ns].model.Some?
  }

  /** Replies and view depend on the view alone, for every command. */
  lemma ApplySameView(e: Engine, n: Node, m: Node, c: Command)
    requires SameView(n, m)
    ensures SameView(Apply(e, n, c).0, Apply(e, m, c).0) && Apply(e, n, c).1 == Apply(e, m, c).1
  {
    assert m == n.(meta := m.meta);
    if c.ListNamespaces? || c.PrintModel? || c.ListPolicies? || c.EnforceRequest? {
      ReadSameView(e, n, m, c);
    } else if c.AddPolicies? || c.RemovePolicies? || c.UpdatePolicies? || c.RemoveFiltered? {
      PolicySameView(e, n, m, c);
    }
  }

  lemma ReadSameView(e: Engine, n: Node, m: Node, c: Command)
    requires SameView(n, m) && (c.ListNamespaces? || c.PrintModel? || c.ListPolicies? || c.EnforceRequest?)
    ensures ApplyRead(e, n, c) == ApplyRead(e, m, c)
  {}

  lemma PolicySameView(e: Engine, n: Node, m: Node, c: Command)
    requires SameView(n, m) && (c.AddPolicies? || c.RemovePolicies? || c.UpdatePolicies? || c.RemoveFiltered?)
    ensures SameView(Apply(e, n, c).0, Apply(e, m, c).0) && Apply(e, n, c).1 == Apply(e, m, c).1
  {}

  lemma {:induction false} RunSameView(e: Engine, n: Node, m: Node, log: seq<Command>)
    requires SameView(n, m)
    ensures SameView(Run(e, n, log), Run(e, m, log))
  {
    if log != [] {
      var k := |log| - 1;
      RunSameView(e, n, m, log[..k]);
      ApplySameView(e, Run(e, n, log[..k]), Run(e, m, log[..k]), log[k]);
    }
  }

  /** The node Restore builds from the snapshot of `n` when the load leaves the rows `t`. */
  lemma RestoreShape(e: Engine, n: Node, m: Node, t: Table)
    requires AllModelled(n)
    requires forall ns | ns in n.enforcers ::
               ns != [] && RegistryKey(ns) in t && e.parse(n.enforcers[ns].model.value).Some?
    ensures Snapshot(n).Some?
    ensures RestoreAt(e, m, Snapshot(n).value, t) == Some(Node(t,
              map ns | ns in n.enforcers :: Enforcer(e.parse(n.enforcers[ns].model.value), LoadSet(e, t, ns)), m.meta))
  {
    var s := Snapshot(n).value;
    assert forall ns | ns in n.enforcers :: Restorable(t, s, ns);
    assert s.models.Keys == n.enforcers.Keys;
    assert RestoreAt(e, m, s, t).value.enforcers ==
      map ns | ns in n.enforcers :: Enforcer(e.parse(n.enforcers[ns].model.value), LoadSet(e, t, ns));
  }

  lemma EnforcerReloads(e: Engine, names: set<Bytes>, a: Policies, n: Node, ns: Bytes, t: Table, b: Policies)
    requires NamesOk(names) && Coherent(e, names, a, n) && ns in n.enforcers && n.enforcers[ns].model.Some?
    requires RowsOk(e, names, b, t)
    ensures ns in names && ns != [] && RegistryKey(ns) in n.table
    ensures n.enforcers[ns].rules == Rules(a, ns)
    ensures e.parse(n.enforcers[ns].model.value) == n.enforcers[ns].model
    ensures LoadSet(e, t, ns) == Rules(b, ns)
  {
    assert EnforcerOk(e, n.table, Rules(a, ns), ns, n.enforcers[ns]);
    LoadSetIsRules(e, t, b, names, ns);
  }

  /** Restoring the snapshot of a coherent node into an empty one gives its view back. */
  lemma RestoreSnapshot(e: Engine, names: set<Bytes>, a: Policies, n: Node)
    requires NamesOk(names) && Coherent(e, names, a, n) && AllModelled(n)
    ensures Snapshot(n).Some? && Restore(e, EMPTY, Snapshot(n).value).Some?
    ensures SameView(Restore(e, EMPTY, Snapshot(n).value).value, n)
  {
    assert EMPTY.table + n.table == n.table;
    forall ns | ns in n.enforcers
      ensures ns != [] && RegistryKey(ns) in n.table
      ensures e.parse(n.enforcers[ns].model.value) == n.enforcers[ns].model
      ensures LoadSet(e, n.table, ns) == n.enforcers[ns].rules
    {
      EnforcerReloads(e, names, a, n, ns, n.table, a);
    }
    RestoreShape(e, n, EMPTY, n.table);
  }

  /** Main result: after any allowed run that leaves every created namespace with a model, the
      restored node answers every further command, of any kind, as the original does. */
  lemma SnapshotCommutes(e: Engine, scope: Policies, u: seq<Command>, v: seq<Command>)
    requires EngineOk(e) && NamesOk(scope.Keys) && AllAllowed(e, scope, u) && AllModelled(Run(e, EMPTY, u))
    ensures var s := Snapshot(Run(e, EMPTY, u));
            && s.Some? && Restore(e, EMPTY, s.value).Some?
            && var r := Restore(e, EMPTY, s.value).value;
               && SameView(Run(e, r, v), Run(e, EMPTY, u + v))
               && forall i | 0 <= i < |v| :: ReplyAt(e, r, v, i) == ReplyAt(e, EMPTY, u + v, |u| + i)
  {
    var n := Run(e, EMPTY, u);
    RunCoherent(e, scope, map[], EMPTY, u);
    RestoreSnapshot(e, scope.Keys, AbsRun(e, map[], EMPTY, u), n);
    var r := Restore(e, EMPTY, Snapshot(n).value).value;
    RunSameView(e, r, n, v);
    RunConcat(e, EMPTY, u, v);
    forall i | 0 <= i < |v| ensures ReplyAt(e, r, v, i) == ReplyAt(e, EMPTY, u + v, |u| + i) {
      RestoredReply(e, r, n, u, v, i);
    }
  }

  lemma RestoredReply(e: Engine, r: Node, n: Node, u: seq<Command>, v: seq<Command>, i: nat)
    requires SameView(r, n) && n == Run(e, EMPTY, u) && i < |v|
    ensures ReplyAt(e, r, v, i) == ReplyAt(e, EMPTY, u + v, |u| + i)
  {
    RunSameView(e, r, n, v[..i]);
    RunConcat(e, EMPTY, u, v[..i]);
    assert (u + v)[..|u| + i] == u + v[..i] && (u + v)[|u| + i] == v[i];
    ApplySameView(e, Run(e, r, v[..i]), Run(e, n, v[..i]), v[i]);
  }
}
