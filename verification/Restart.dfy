/** Restarting a node: the state database survives, memory does not, and the log is replayed over
    the survivors, with or without a snapshot loaded first (server/store/store.go:226-264,
    server/store/fsm.go:392-455). */
module Restart {
  import opened ByteStrings
  import opened Keys
  import opened Badger
  import opened Adapter
  import opened Refinement
  import opened Replay
  import opened Fsm
  import opened Coherence
  import opened Snapshots
  import Lifecycle

  /** The namespaces known in memory, with their models: what decides which commands write. */
  type Skeleton = map<Bytes, Option<Bytes>>

  function SkeletonOf(n: Node): Skeleton {
    map ns | ns in n.enforcers :: n.enforcers[ns].model
  }

  function SkeletonStep(e: Engine, sk: Skeleton, c: Command): Skeleton {
    match c
    case CreateNamespace(ns) => if ns in sk then sk else sk[ns := None]
    case SetModel(ns, text) =>
      if ns in sk && ns != [] && e.parse(text).Some? then sk[ns := e.parse(text)] else sk
    case _ => sk
  }

  const NOTHING: Entry := RemoveEntry([], [])

  /** The table write of a command. */
  function EntryOf(sk: Skeleton, c: Command): Entry {
    match c
    case SetModel(ns, _) => if ns in sk && ns != [] then RegisterEntry(ns) else NOTHING
    case AddPolicies(ns, ptype, rules) =>
      if ns in sk && sk[ns].Some? then AddEntry(ns, Convert(ptype, rules)) else NOTHING
    case RemovePolicies(ns, ptype, rules) =>
      if ns in sk && sk[ns].Some? then RemoveEntry(ns, Convert(ptype, rules)) else NOTHING
    case RemoveFiltered(ns, ptype, index, values) =>
      if ns in sk && sk[ns].Some? && values != [] then FilterEntry(ns, ptype, index, values) else NOTHING
    case _ => NOTHING
  }

  function SkeletonRun(e: Engine, sk: Skeleton, log: seq<Command>): Skeleton {
    if log == [] then sk else SkeletonStep(e, SkeletonRun(e, sk, log[..|log| - 1]), log[|log| - 1])
  }

  function Trace(e: Engine, sk: Skeleton, log: seq<Command>): seq<Entry> {
    if log == [] then []
    else
      var k := |log| - 1;
      Trace(e, sk, log[..k]) + [EntryOf(SkeletonRun(e, sk, log[..k]), log[k])]
  }

  lemma SkeletonApply(e: Engine, n: Node, c: Command)
    ensures SkeletonOf(Apply(e, n, c).0) == SkeletonStep(e, SkeletonOf(n), c)
  {
    if c.AddPolicies? || c.RemovePolicies? || c.UpdatePolicies? || c.RemoveFiltered? { PolicySkeleton(e, n, c); }
  }

  lemma PolicySkeleton(e: Engine, n: Node, c: Command)
    requires c.AddPolicies? || c.RemovePolicies? || c.UpdatePolicies? || c.RemoveFiltered?
    ensures SkeletonOf(Apply(e, n, c).0) == SkeletonOf(n)
  {}

  /** A rule in memory is in its row already, and no write of a batch takes it away. */
  lemma {:induction false} PutKeeps(names: set<Bytes>, t: Table, ns: Bytes, lines: seq<Line>, l: Line)
    requires PrefixFree(names) && ns in names && AllWellFormed(lines) && Stores(t, RowKey(ns, l), ns, l)
    ensures Stores(PutLines(t, ns, lines), RowKey(ns, l), ns, l)
  {
    if lines != [] {
      var k := |lines| - 1;
      PutKeeps(names, t, ns, lines[..k], l);
      RowKeyInjective(names, ns, l, ns, lines[k]);
    }
  }

  lemma PutSnoc(t: Table, ns: Bytes, lines: seq<Line>, l: Line)
    ensures PutLines(t, ns, lines + [l]) == PutLines(t, ns, lines)[RowKey(ns, l) := Rule(l)]
  {
    assert (lines + [l])[..|lines|] == lines;
  }

  lemma PutPresent(names: set<Bytes>, t: Table, ns: Bytes, lines: seq<Line>, l: Line)
    requires PrefixFree(names) && ns in names && AllWellFormed(lines) && Stores(t, RowKey(ns, l), ns, l)
    ensures PutLines(t, ns, lines)[RowKey(ns, l) := Rule(l)] == PutLines(t, ns, lines)
  {
    PutKeeps(names, t, ns, lines, l);
  }

  /** Writing only the missing lines is writing them all. */
  lemma {:induction false} PutMissing(names: set<Bytes>, t: Table, a: Policies, ns: Bytes, lines: seq<Line>)
    requires PrefixFree(names) && ns in names && AllWellFormed(lines) && Refines(t, a, names)
    ensures PutLines(t, ns, Missing(lines, Rules(a, ns))) == PutLines(t, ns, lines)
  {
    if lines != [] {
      var k := |lines| - 1;
      var front, l := lines[..k], lines[k];
      assert lines == front + [l];
      PutMissing(names, t, a, ns, front);
      PutSnoc(t, ns, front, l);
      if l in Rules(a, ns) {
        assert Stores(t, RowKey(ns, l), ns, l);
        PutPresent(names, t, ns, front, l);
        assert Missing(lines, Rules(a, ns)) == Missing(front, Rules(a, ns));
      } else {
        PutSnoc(t, ns, Missing(front, Rules(a, ns)), l);
      }
    }
  }

  lemma TableAdd(e: Engine, names: set<Bytes>, a: Policies, n: Node, ns: Bytes, lines: seq<Line>)
    requires NamesOk(names) && Coherent(e, names, a, n) && ns in names && AllSound(e, lines)
    requires ns in n.enforcers && n.enforcers[ns].model.Some?
    ensures ApplyAdd(n, ns, lines).0.table == PutLines(n.table, ns, lines)
  {
    assert EnforcerOk(e, n.table, Rules(a, ns), ns, n.enforcers[ns]);
    PutMissing(names, n.table, a, ns, lines);
  }

  lemma TableSetModel(e: Engine, names: set<Bytes>, a: Policies, n: Node, ns: Bytes, text: Bytes)
    requires NamesOk(names) && Coherent(e, names, a, n) && ns in names && ns in n.enforcers
    ensures ApplySetModel(e, n, ns, text).0.table == n.table[RegistryKey(ns) := Blank]
  {
    RegisterKeeps(names, n.table, a, ns);
  }

  /** The commands whose write does not depend on what is stored. */
  lemma TableOther(e: Engine, n: Node, c: Command)
    requires !c.SetModel? && !c.AddPolicies? && !c.UpdatePolicies?
    ensures Apply(e, n, c).0.table == ApplyEntry(n.table, EntryOf(SkeletonOf(n), c))
  {
    assert ApplyEntry(n.table, NOTHING) == n.table;
  }

  lemma TableApply(e: Engine, scope: Policies, a: Policies, n: Node, c: Command)
    requires NamesOk(scope.Keys) && Coherent(e, scope.Keys, a, n) && Allowed(e, scope, c)
    ensures Apply(e, n, c).0.table == ApplyEntry(n.table, EntryOf(SkeletonOf(n), c))
  {
    var names := scope.Keys;
    assert ApplyEntry(n.table, NOTHING) == n.table;
    if c.SetModel? {
      if c.ns in n.enforcers { TableSetModel(e, names, a, n, c.ns, c.text); }
    } else if c.AddPolicies? {
      if c.ns in n.enforcers && n.enforcers[c.ns].model.Some? {
        TableAdd(e, names, a, n, c.ns, Convert(c.ptype, c.rules));
      }
    } else {
      TableOther(e, n, c);
    }
  }

  /** A run writes the trace of its commands, and the trace depends on the skeleton alone. */
  lemma {:induction false} RunTrace(e: Engine, scope: Policies, a: Policies, n: Node, log: seq<Command>)
    requires EngineOk(e) && NamesOk(scope.Keys) && Coherent(e, scope.Keys, a, n) && Inside(a, scope) && AllAllowed(e, scope, log)
    ensures Run(e, n, log).table == RunLog(n.table, Trace(e, SkeletonOf(n), log))
    ensures SkeletonOf(Run(e, n, log)) == SkeletonRun(e, SkeletonOf(n), log)
  {
    if log != [] {
      var k := |log| - 1;
      var m := Run(e, n, log[..k]);
      RunTrace(e, scope, a, n, log[..k]);
      RunCoherent(e, scope, a, n, log[..k]);
      TableApply(e, scope, AbsRun(e, a, n, log[..k]), m, log[k]);
      SkeletonApply(e, m, log[k]);
      var tr := Trace(e, SkeletonOf(n), log);
      assert tr[..|tr| - 1] == Trace(e, SkeletonOf(n), log[..k]);
    }
  }

  lemma {:induction false} TraceConcat(e: Engine, sk: Skeleton, u: seq<Command>, v: seq<Command>)
    ensures SkeletonRun(e, sk, u + v) == SkeletonRun(e, SkeletonRun(e, sk, u), v)
    ensures Trace(e, sk, u + v) == Trace(e, sk, u) + Trace(e, SkeletonRun(e, sk, u), v)
  {
    if v == [] {
      assert u + v == u;
    } else {
      var k := |v| - 1;
      assert (u + v)[..|u| + k] == u + v[..k] && (u + v)[|u| + k] == v[k];
      TraceConcat(e, sk, u, v[..k]);
    }
  }

  lemma {:induction false} TracePrefix(e: Engine, sk: Skeleton, log: seq<Command>, j: nat)
    requires j <= |log|
    ensures |Trace(e, sk, log)| == |log|
    ensures Trace(e, sk, log[..j]) == Trace(e, sk, log)[..j]
  {
    if j == |log| {
      assert log[..j] == log;
      if log != [] { TracePrefix(e, sk, log[..|log| - 1], |log| - 1); }
    } else {
      var front := log[..|log| - 1];
      TracePrefix(e, sk, front, j);
      assert front[..j] == log[..j];
    }
  }

  /** Coherent nodes with equal skeletons know the same namespaces and models, and can only differ
      in the rules of modelled ones. */
  lemma SameSkeleton(e: Engine, names: set<Bytes>, a: Policies, n: Node, b: Policies, m: Node, ns: Bytes)
    requires EnforcersOk(e, names, a, n) && EnforcersOk(e, names, b, m) && SkeletonOf(n) == SkeletonOf(m)
    ensures ns in n.enforcers <==> ns in m.enforcers
    ensures ns in n.enforcers ==>
              && ns in names && n.enforcers[ns].model == m.enforcers[ns].model
              && (n.enforcers[ns] == m.enforcers[ns] <==> n.enforcers[ns].model.None? || Rules(a, ns) == Rules(b, ns))
  {
    assert n.enforcers.Keys == SkeletonOf(n).Keys == SkeletonOf(m).Keys == m.enforcers.Keys;
    if ns in n.enforcers {
      assert n.enforcers[ns].model == SkeletonOf(n)[ns] == SkeletonOf(m)[ns] == m.enforcers[ns].model;
      assert EnforcerOk(e, n.table, Rules(a, ns), ns, n.enforcers[ns]);
      assert EnforcerOk(e, m.table, Rules(b, ns), ns, m.enforcers[ns]);
    }
  }

  /** Coherent nodes with equal rows and equal skeletons are equal in view. */
  lemma RowsAndSkeleton(e: Engine, names: set<Bytes>, a: Policies, n: Node, b: Policies, m: Node)
    requires NamesOk(names) && Coherent(e, names, a, n) && Coherent(e, names, b, m)
    requires n.table == m.table && SkeletonOf(n) == SkeletonOf(m)
    ensures SameView(n, m)
  {
    forall ns ensures (ns in n.enforcers <==> ns in m.enforcers) && (ns in n.enforcers ==> n.enforcers[ns] == m.enforcers[ns]) {
      SameSkeleton(e, names, a, n, b, m, ns);
      if ns in n.enforcers {
        LoadedIsRules(n.table, a, names, ns);
        LoadedIsRules(m.table, b, names, ns);
      }
    }
  }

  lemma TraceFromEmpty(e: Engine, scope: Policies, w: seq<Command>)
    requires EngineOk(e) && NamesOk(scope.Keys) && AllAllowed(e, scope, w)
    ensures Run(e, EMPTY, w).table == RunLog(map[], Trace(e, map[], w))
    ensures SkeletonOf(Run(e, EMPTY, w)) == SkeletonRun(e, map[], w)
  {
    assert SkeletonOf(EMPTY) == map[];
    RunTrace(e, scope, map[], EMPTY, w);
  }

  /** The rows of `u` then any part of `v` are those of its trace. */
  lemma TraceOfBoth(e: Engine, scope: Policies, u: seq<Command>, v: seq<Command>, applied: nat)
    requires EngineOk(e) && NamesOk(scope.Keys) && AllAllowed(e, scope, u) && AllAllowed(e, scope, v) && applied <= |v|
    ensures var tu, tv := Trace(e, map[], u), Trace(e, SkeletonOf(Run(e, EMPTY, u)), v);
            && applied <= |tv| && Run(e, EMPTY, u + v[..applied]).table == RunLog(map[], tu + tv[..applied])
  {
    var w := v[..applied];
    TraceFromEmpty(e, scope, u);
    AllowedConcat(e, scope, u, w);
    TraceFromEmpty(e, scope, u + w);
    TraceConcat(e, map[], u, w);
    TracePrefix(e, SkeletonRun(e, map[], u), v, applied);
  }

  lemma SkeletonOfBoth(e: Engine, scope: Policies, u: seq<Command>, v: seq<Command>)
    requires EngineOk(e) && NamesOk(scope.Keys) && AllAllowed(e, scope, u) && AllAllowed(e, scope, v)
    ensures SkeletonOf(Run(e, EMPTY, u + v)) == SkeletonRun(e, SkeletonOf(Run(e, EMPTY, u)), v)
  {
    AllowedConcat(e, scope, u, v);
    TraceFromEmpty(e, scope, u);
    TraceFromEmpty(e, scope, u + v);
    TraceConcat(e, map[], u, v);
  }

  lemma ReplayRows(e: Engine, scope: Policies, u: seq<Command>, v: seq<Command>, applied: nat, b: Policies, r: Node)
    requires EngineOk(e) && NamesOk(scope.Keys) && AllAllowed(e, scope, u) && AllAllowed(e, scope, v) && applied <= |v|
    requires Coherent(e, scope.Keys, b, r) && Inside(b, scope) && SkeletonOf(r) == SkeletonOf(Run(e, EMPTY, u))
    requires Merged(r.table, Run(e, EMPTY, u + v[..applied]).table, Run(e, EMPTY, u).table)
    ensures Run(e, r, v).table == Run(e, EMPTY, u + v).table
    ensures SkeletonOf(Run(e, r, v)) == SkeletonOf(Run(e, EMPTY, u + v))
  {
    var tu, tv := Trace(e, map[], u), Trace(e, SkeletonOf(r), v);
    TraceFromEmpty(e, scope, u);
    TraceOfBoth(e, scope, u, v, applied);
    TraceOfBoth(e, scope, u, v, |v|);
    TracePrefix(e, SkeletonOf(r), v, |v|);
    assert v[..|v|] == v && tv[..|v|] == tv;
    CrashReplayHarmless(map[], r.table, tu, tv, applied);
    RunTrace(e, scope, b, r, v);
    SkeletonOfBoth(e, scope, u, v);
  }

  /** Main result: a coherent node whose memory knows what the run `u` knew, over rows merged from
      those after any part of `v` and those after `u`, comes back to the view of `u` then `v` by
      replaying `v`. */
  lemma ReplayRestores(e: Engine, scope: Policies, u: seq<Command>, v: seq<Command>, applied: nat, b: Policies, r: Node)
    requires EngineOk(e) && NamesOk(scope.Keys) && AllAllowed(e, scope, u) && AllAllowed(e, scope, v) && applied <= |v|
    requires Coherent(e, scope.Keys, b, r) && Inside(b, scope) && SkeletonOf(r) == SkeletonOf(Run(e, EMPTY, u))
    requires Merged(r.table, Run(e, EMPTY, u + v[..applied]).table, Run(e, EMPTY, u).table)
    ensures SameView(Run(e, r, v), Run(e, EMPTY, u + v))
  {
    ReplayRows(e, scope, u, v, applied, b, r);
    AllowedConcat(e, scope, u, v);
    RunCoherent(e, scope, b, r, v);
    RunCoherent(e, scope, map[], EMPTY, u + v);
    RowsAndSkeleton(e, scope.Keys, AbsRun(e, b, r, v), Run(e, r, v), AbsRun(e, map[], EMPTY, u + v), Run(e, EMPTY, u + v));
  }

  lemma AllowedConcat(e: Engine, scope: Policies, u: seq<Command>, v: seq<Command>)
    requires AllAllowed(e, scope, u) && AllAllowed(e, scope, v)
    ensures AllAllowed(e, scope, u + v)
  {}

  /** Restart without a snapshot: empty memory, the rows of any prefix, the whole log again. */
  lemma ColdRestart(e: Engine, scope: Policies, log: seq<Command>, applied: nat, meta: Metadata)
    requires EngineOk(e) && NamesOk(scope.Keys) && AllAllowed(e, scope, log) && applied <= |log|
    ensures SameView(Run(e, Node(Run(e, EMPTY, log[..applied]).table, map[], meta), log), Run(e, EMPTY, log))
  {
    var n := Run(e, EMPTY, log[..applied]);
    var r := Node(n.table, map[], meta);
    RunCoherent(e, scope, map[], EMPTY, log[..applied]);
    var a := AbsRun(e, map[], EMPTY, log[..applied]);
    assert Coherent(e, scope.Keys, a, r);
    assert [] + log[..applied] == log[..applied] && [] + log == log;
    ReplayRestores(e, scope, [], log, applied, a, r);
  }

  /** Of two sides' rules those that have a row. */
  function MergedPolicies(a: Policies, b: Policies, t: Table, names: set<Bytes>): Policies {
    map ns | ns in names :: set l | l in Rules(a, ns) + Rules(b, ns) && RowKey(ns, l) in t
  }

  lemma StoredOnEither(t: Table, a: Policies, u: Table, b: Policies, w: Table, names: set<Bytes>, ns: Bytes, l: Line)
    requires PrefixFree(names) && ns in names && Refines(t, a, names) && Refines(u, b, names) && Merged(w, t, u)
    requires l in Rules(a, ns) + Rules(b, ns) && RowKey(ns, l) in w
    ensures Stores(w, RowKey(ns, l), ns, l)
  {
    var k := RowKey(ns, l);
    if l in Rules(a, ns) { assert Stores(t, k, ns, l); }
    if l in Rules(b, ns) { assert Stores(u, k, ns, l); }
    PresentIffRule(t, a, names, ns, l);
    PresentIffRule(u, b, names, ns, l);
    assert SameAt(w, t, k) || SameAt(w, u, k);
  }

  /** Rows read from either side, key by key, are rows. */
  lemma RowsMerged(e: Engine, names: set<Bytes>, a: Policies, t: Table, b: Policies, u: Table, w: Table)
    requires NamesOk(names) && RowsOk(e, names, a, t) && RowsOk(e, names, b, u) && Merged(w, t, u)
    ensures RowsOk(e, names, MergedPolicies(a, b, w, names), w)
  {
    var c := MergedPolicies(a, b, w, names);
    forall ns, l | ns in names && l in Rules(c, ns) ensures Stores(w, RowKey(ns, l), ns, l) {
      StoredOnEither(t, a, u, b, w, names, ns, l);
    }
    forall k | k in w && POLICY_PREFIX <= k
      ensures exists ns, l :: ns in names && l in Rules(c, ns) && Stores(w, k, ns, l)
    {
      MergedRow(t, a, u, b, w, names, k);
    }
    forall k | k in w && !(POLICY_PREFIX <= k)
      ensures w[k] == Blank && exists ns :: ns in names && k == RegistryKey(ns)
    {
      assert SameAt(w, t, k) || SameAt(w, u, k);
    }
  }

  lemma MergedRow(t: Table, a: Policies, u: Table, b: Policies, w: Table, names: set<Bytes>, k: Bytes)
    requires Refines(t, a, names) && Refines(u, b, names) && Merged(w, t, u) && k in w && POLICY_PREFIX <= k
    ensures exists ns, l :: ns in names && l in Rules(MergedPolicies(a, b, w, names), ns) && Stores(w, k, ns, l)
  {
    assert SameAt(w, t, k) || SameAt(w, u, k);
    if SameAt(w, t, k) {
      var ns, l :| ns in names && l in Rules(a, ns) && Stores(t, k, ns, l);
      assert l in Rules(MergedPolicies(a, b, w, names), ns) && Stores(w, k, ns, l);
    } else {
      var ns, l :| ns in names && l in Rules(b, ns) && Stores(u, k, ns, l);
      assert l in Rules(MergedPolicies(a, b, w, names), ns) && Stores(w, k, ns, l);
    }
  }

  /** Every load outcome reads each key from one side. */
  lemma MergedLoad(t: Table, rows: Table, newer: set<Bytes>)
    ensures Merged(LoadedOver(t, rows, newer), t, rows)
  {}

  /** A name registered before both sides is registered whichever is read. */
  lemma MergedNames(e: Engine, u: seq<Command>, w: seq<Command>, t: Table)
    requires Merged(t, Run(e, EMPTY, u + w).table, Run(e, EMPTY, u).table)
    ensures forall ns | RegistryKey(ns) in Run(e, EMPTY, u).table :: RegistryKey(ns) in t
  {
    forall ns | RegistryKey(ns) in Run(e, EMPTY, u).table ensures RegistryKey(ns) in t {
      Lifecycle.NamesGrow(e, u, w, ns);
      assert Lifecycle.Registered(Run(e, EMPTY, u), ns);
      assert SameAt(t, Run(e, EMPTY, u + w).table, RegistryKey(ns)) || SameAt(t, Run(e, EMPTY, u).table, RegistryKey(ns));
    }
  }

  /** Restart with a snapshot, whatever the load leaves of the two sides' rows: its models bring the
      enforcers back, and the log after it is replayed. */
  lemma WarmRestart(e: Engine, scope: Policies, u: seq<Command>, v: seq<Command>, applied: nat, meta: Metadata, t: Table)
    requires EngineOk(e) && NamesOk(scope.Keys) && AllAllowed(e, scope, u) && AllAllowed(e, scope, v)
    requires applied <= |v| && AllModelled(Run(e, EMPTY, u))
    requires Merged(t, Run(e, EMPTY, u + v[..applied]).table, Run(e, EMPTY, u).table)
    ensures var s := Snapshot(Run(e, EMPTY, u));
            && s.Some?
            && var r := RestoreAt(e, Node(Run(e, EMPTY, u + v[..applied]).table, map[], meta), s.value, t);
               r.Some? && SameView(Run(e, r.value, v), Run(e, EMPTY, u + v))
  {
    var n, far := Run(e, EMPTY, u), Run(e, EMPTY, u + v[..applied]);
    var a, b := AbsRun(e, map[], EMPTY, u), AbsRun(e, map[], EMPTY, u + v[..applied]);
    AllowedConcat(e, scope, u, v[..applied]);
    RunCoherent(e, scope, map[], EMPTY, u);
    RunCoherent(e, scope, map[], EMPTY, u + v[..applied]);
    MergedNames(e, u, v[..applied], t);
    RestoreOver(e, scope.Keys, a, n, b, far.table, Node(far.table, map[], meta), t);
    var c := MergedPolicies(b, a, t, scope.Keys);
    assert Inside(c, scope);
    ReplayRestores(e, scope, u, v, applied, c, RestoreAt(e, Node(far.table, map[], meta), Snapshot(n).value, t).value);
  }

  /** Enforcers with the old models and the rules of the rows they are read from. */
  lemma Reloaded(e: Engine, names: set<Bytes>, a: Policies, n: Node, c: Policies, r: Node)
    requires EnforcersOk(e, names, a, n) && r.enforcers.Keys == n.enforcers.Keys
    requires forall ns | ns in n.enforcers ::
               && n.enforcers[ns].model.Some? && RegistryKey(ns) in r.table
               && r.enforcers[ns] == Enforcer(n.enforcers[ns].model, Rules(c, ns))
    ensures EnforcersOk(e, names, c, r) && SkeletonOf(r) == SkeletonOf(n)
  {
    forall ns | ns in r.enforcers ensures ns in names && EnforcerOk(e, r.table, Rules(c, ns), ns, r.enforcers[ns]) {
      assert EnforcerOk(e, n.table, Rules(a, ns), ns, n.enforcers[ns]);
    }
  }

  /** Restoring over survivors: coherent with the merged rows, and knowing what the snapshot knew. */
  lemma RestoreOver(e: Engine, names: set<Bytes>, a: Policies, n: Node, b: Policies, rows: Table, m: Node, t: Table)
    requires NamesOk(names) && Coherent(e, names, a, n) && AllModelled(n) && RowsOk(e, names, b, rows)
    requires Merged(t, rows, n.table) && forall ns | RegistryKey(ns) in n.table :: RegistryKey(ns) in t
    ensures Snapshot(n).Some?
    ensures var r := RestoreAt(e, m, Snapshot(n).value, t);
            && r.Some? && Coherent(e, names, MergedPolicies(b, a, t, names), r.value)
            && SkeletonOf(r.value) == SkeletonOf(n) && r.value.table == t
  {
    var c := MergedPolicies(b, a, t, names);
    RowsMerged(e, names, b, rows, a, n.table, t);
    RestoredEnforcers(e, names, a, n, t, c);
    RestoredNode(e, n, m, t, c);
    Reloaded(e, names, a, n, c, RestoreAt(e, m, Snapshot(n).value, t).value);
  }

  ghost predicate Reloads(e: Engine, n: Node, t: Table, c: Policies, ns: Bytes)
    requires ns in n.enforcers && n.enforcers[ns].model.Some?
  {
    && ns != [] && RegistryKey(ns) in t
    && e.parse(n.enforcers[ns].model.value) == n.enforcers[ns].model
    && LoadSet(e, t, ns) == Rules(c, ns)
  }

  lemma RestoredNode(e: Engine, n: Node, m: Node, t: Table, c: Policies)
    requires AllModelled(n) && forall ns | ns in n.enforcers :: Reloads(e, n, t, c, ns)
    ensures Snapshot(n).Some?
    ensures var r := RestoreAt(e, m, Snapshot(n).value, t);
            && r.Some? && r.value.table == t && r.value.enforcers.Keys == n.enforcers.Keys
            && forall ns | ns in n.enforcers ::
                 RegistryKey(ns) in r.value.table && r.value.enforcers[ns] == Enforcer(n.enforcers[ns].model, Rules(c, ns))
  {
    RestoreShape(e, n, m, t);
  }

  lemma RestoredEnforcers(e: Engine, names: set<Bytes>, a: Policies, n: Node, t: Table, c: Policies)
    requires NamesOk(names) && Coherent(e, names, a, n) && AllModelled(n) && RowsOk(e, names, c, t)
    requires forall ns | RegistryKey(ns) in n.table :: RegistryKey(ns) in t
    ensures forall ns | ns in n.enforcers :: Reloads(e, n, t, c, ns)
  {
    forall ns | ns in n.enforcers ensures Reloads(e, n, t, c, ns) {
      EnforcerReloads(e, names, a, n, ns, t, c);
    }
  }

  // ---- reads during replay ----

  /** Replaying a trace over surviving rows and over no rows gives a namespace the same rows
      exactly when the trace writes every key of the namespace that survived. */
  lemma TraceOver(rows: Table, trace: seq<Entry>, k: Bytes)
    ensures SameAt(RunLog(rows, trace), RunLog(map[], trace), k) <==> k !in rows || Touches(trace, k)
    ensures k in rows && !Touches(trace, k) ==> k in RunLog(rows, trace) && k !in RunLog(map[], trace)
  {
    LogShows(rows, trace, k);
    LogShows(map[], trace, k);
    LogTouches(trace, k);
  }

  ghost predicate AllRewritten(rows: Table, trace: seq<Entry>, ns: Bytes) {
    forall k | k in rows && WithPrefix(ns, []) <= k :: Touches(trace, k)
  }

  lemma RulesOver(names: set<Bytes>, rows: Table, trace: seq<Entry>, a: Policies, b: Policies, ns: Bytes)
    requires PrefixFree(names) && ns in names
    requires Refines(RunLog(rows, trace), a, names) && Refines(RunLog(map[], trace), b, names)
    ensures Rules(a, ns) == Rules(b, ns) <==> AllRewritten(rows, trace, ns)
  {
    var t, u := RunLog(rows, trace), RunLog(map[], trace);
    if AllRewritten(rows, trace, ns) {
      forall k | WithPrefix(ns, []) <= k ensures SameAt(t, u, k) { TraceOver(rows, trace, k); }
      LoadedLocal(t, u, ns);
      LoadedIsRules(t, a, names, ns);
      LoadedIsRules(u, b, names, ns);
    } else {
      var k :| k in rows && WithPrefix(ns, []) <= k && !Touches(trace, k);
      TraceOver(rows, trace, k);
      RowOfNamespace(t, a, names, ns, k);
      PresentIffRule(u, b, names, ns, t[k].line);
    }
  }

  /** Memory while the log is replayed over any rows, against memory after the same entries alone:
      the same namespaces and models, and the same rules exactly when the entries replayed so far
      have written every key of the namespace that survived. */
  lemma ReplayedMemory(e: Engine, scope: Policies, b: Policies, rows: Table, u: seq<Command>, ns: Bytes)
    requires EngineOk(e) && NamesOk(scope.Keys) && AllAllowed(e, scope, u) && RowsOk(e, scope.Keys, b, rows) && Inside(b, scope)
    ensures var r, prefix := Run(e, Node(rows, map[], map[]), u), Run(e, EMPTY, u);
            && (ns in r.enforcers <==> ns in prefix.enforcers)
            && (ns in r.enforcers ==>
                  && r.enforcers[ns].model == prefix.enforcers[ns].model
                  && (r.enforcers[ns] == prefix.enforcers[ns] <==>
                        r.enforcers[ns].model.None? || AllRewritten(rows, Trace(e, map[], u), ns)))
  {
    var r0 := Node(rows, map[], map[]);
    var r, prefix := Run(e, r0, u), Run(e, EMPTY, u);
    var a, c := AbsRun(e, b, r0, u), AbsRun(e, map[], EMPTY, u);
    assert SkeletonOf(r0) == map[] && SkeletonOf(EMPTY) == map[];
    RunTrace(e, scope, b, r0, u);
    RunTrace(e, scope, map[], EMPTY, u);
    RunCoherent(e, scope, b, r0, u);
    RunCoherent(e, scope, map[], EMPTY, u);
    SameSkeleton(e, scope.Keys, a, r, c, prefix, ns);
    if ns in r.enforcers { RulesOver(scope.Keys, rows, Trace(e, map[], u), a, c, ns); }
  }

  /** While a restarted node replays its log, its memory need not be that of the prefix it has
      replayed: for every crash point and every number of replayed entries the two agree on a
      namespace exactly when the replayed entries have written every surviving key of it. */
  lemma MidReplayRead(e: Engine, scope: Policies, log: seq<Command>, applied: nat, k: nat, ns: Bytes)
    requires EngineOk(e) && NamesOk(scope.Keys) && AllAllowed(e, scope, log) && applied <= |log| && k <= |log|
    ensures var rows := Run(e, EMPTY, log[..applied]).table;
            var r, prefix := Run(e, Node(rows, map[], map[]), log[..k]), Run(e, EMPTY, log[..k]);
            && (ns in r.enforcers <==> ns in prefix.enforcers)
            && (ns in r.enforcers ==>
                  && r.enforcers[ns].model == prefix.enforcers[ns].model
                  && (r.enforcers[ns] == prefix.enforcers[ns] <==>
                        r.enforcers[ns].model.None? || AllRewritten(rows, Trace(e, map[], log[..k]), ns)))
  {
    var u := log[..applied];
    RunCoherent(e, scope, map[], EMPTY, u);
    ReplayedMemory(e, scope, AbsRun(e, map[], EMPTY, u), Run(e, EMPTY, u).table, log[..k], ns);
  }
}
