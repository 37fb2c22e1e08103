/** Restarts of logs with batch updates that find all of their old rules or none. Memory and rows then
    stay in step, a node's writes depend on its namespaces and models alone, and what making those
    writes again rebuilds is known exactly (server/store/store.go:237-264, server/store/fsm.go:197-212). */
module UpdateRestart {
  import opened ByteStrings
  import opened Keys
  import opened Badger
  import opened Adapter
  import opened Refinement
  import opened Fsm
  import opened Casbin
  import opened Coherence
  import opened Snapshots
  import opened Replay
  import opened Restart
  import opened Divergence
  import opened UpdateReplay

  // ---- what a run keeps ----

  /** An update that Casbin and the adapter treat alike here: all of its old rules are stored, each
      named once, or none is. */
  ghost predicate UpdateAlike(rules: set<Line>, olds: seq<Line>, news: seq<Line>) {
    |olds| == |news| && Separate(rules, olds, news) && (AllFound(rules, olds) || ToLineSet(olds) !! rules)
  }

  /** The command keeps memory and rows in step on this node: it is allowed, or it is such an update
      within the scope. */
  ghost predicate Fitting(e: Engine, scope: Policies, n: Node, c: Command) {
    if c.UpdatePolicies? then
      && c.ns in scope && UpdatesAllOrNone(e)
      && AllSound(e, Convert(c.ptype, c.olds)) && AllSound(e, Convert(c.ptype, c.news))
      && ToLineSet(Convert(c.ptype, c.news)) <= scope[c.ns]
      && (Modelled(n, c.ns) ==> UpdateAlike(n.enforcers[c.ns].rules, Convert(c.ptype, c.olds), Convert(c.ptype, c.news)))
    else Allowed(e, scope, c)
  }

  ghost predicate AllFitting(e: Engine, scope: Policies, n: Node, log: seq<Command>) {
    log == [] || (AllFitting(e, scope, n, log[..|log| - 1]) && Fitting(e, scope, Run(e, n, log[..|log| - 1]), log[|log| - 1]))
  }

  ghost function RulesApply(a: Policies, n: Node, c: Command): Policies {
    if c.UpdatePolicies? && Modelled(n, c.ns) && |c.olds| == |c.news|
    then a[c.ns := SpecReplace(Rules(a, c.ns), Convert(c.ptype, c.olds), Convert(c.ptype, c.news))]
    else AbsApply(a, n, c)
  }

  ghost function RulesRun(e: Engine, a: Policies, n: Node, log: seq<Command>): Policies {
    if log == [] then a
    else
      var k := |log| - 1;
      RulesApply(RulesRun(e, a, n, log[..k]), Run(e, n, log[..k]), log[k])
  }

  lemma ReplaceRulesLoad(e: Engine, names: set<Bytes>, a: Policies, ns: Bytes, from: seq<Line>, to: seq<Line>)
    requires RulesLoad(e, a, names) && |from| == |to| && AllSound(e, to)
    ensures RulesLoad(e, a[ns := SpecReplace(Rules(a, ns), from, to)], names)
  {
    var b := a[ns := SpecReplace(Rules(a, ns), from, to)];
    forall m, l | m in names && l in Rules(b, m) ensures e.load(l) == l {
      if m == ns { ReplaceSource(Rules(a, ns), from, to, l); }
    }
  }

  lemma ReplaceInside(a: Policies, scope: Policies, ns: Bytes, from: seq<Line>, to: seq<Line>)
    requires Inside(a, scope) && |from| == |to| && ToLineSet(to) <= Rules(scope, ns)
    ensures Inside(a[ns := SpecReplace(Rules(a, ns), from, to)], scope)
  {
    var b := a[ns := SpecReplace(Rules(a, ns), from, to)];
    forall m, l | l in Rules(b, m) ensures l in Rules(scope, m) {
      if m == ns {
        ReplaceSource(Rules(a, ns), from, to, l);
        if l in to { assert l in ToLineSet(to); }
      }
    }
  }

  /** The update keeps memory and rows coherent. */
  lemma UpdateCoherent(e: Engine, names: set<Bytes>, a: Policies, n: Node, ns: Bytes, from: seq<Line>, to: seq<Line>)
    requires NamesOk(names) && Coherent(e, names, a, n) && Modelled(n, ns) && UpdatesAllOrNone(e)
    requires AllSound(e, from) && AllSound(e, to) && UpdateAlike(n.enforcers[ns].rules, from, to)
    ensures Coherent(e, names, a[ns := SpecReplace(Rules(a, ns), from, to)], ApplyUpdate(e, n, ns, from, to).0)
  {
    var call := Update(ns, from, to);
    var rules := SpecReplace(Rules(a, ns), from, to);
    MemoryIsRules(e, names, a, n, ns);
    UpdateRefines(n.table, a, names, ns, from, to);
    ReplaceRulesLoad(e, names, a, ns, from, to);
    CallKeepsRegistry(n.table, names, call);
    OthersOk(e, names, a, n, ns, call, rules);
    ReplaceFound(Rules(a, ns), from, to);
    UpdateSets(Rules(a, ns), from, to);
  }

  lemma FittingCoherent(e: Engine, scope: Policies, a: Policies, n: Node, c: Command)
    requires EngineOk(e) && NamesOk(scope.Keys) && Coherent(e, scope.Keys, a, n) && Inside(a, scope) && Fitting(e, scope, n, c)
    ensures Coherent(e, scope.Keys, RulesApply(a, n, c), Apply(e, n, c).0) && Inside(RulesApply(a, n, c), scope)
  {
    if c.UpdatePolicies? {
      if Modelled(n, c.ns) {
        UpdateCoherent(e, scope.Keys, a, n, c.ns, Convert(c.ptype, c.olds), Convert(c.ptype, c.news));
        ReplaceInside(a, scope, c.ns, Convert(c.ptype, c.olds), Convert(c.ptype, c.news));
      }
    } else {
      ApplyCoherent(e, scope, a, n, c);
    }
  }

  /** Every run in which each update finds all or none keeps memory and rows coherent. */
  lemma {:induction false} FittingRun(e: Engine, scope: Policies, a: Policies, n: Node, log: seq<Command>)
    requires EngineOk(e) && NamesOk(scope.Keys) && Coherent(e, scope.Keys, a, n) && Inside(a, scope) && AllFitting(e, scope, n, log)
    ensures Coherent(e, scope.Keys, RulesRun(e, a, n, log), Run(e, n, log)) && Inside(RulesRun(e, a, n, log), scope)
  {
    if log != [] {
      var k := |log| - 1;
      FittingRun(e, scope, a, n, log[..k]);
      FittingCoherent(e, scope, RulesRun(e, a, n, log[..k]), Run(e, n, log[..k]), log[k]);
    }
  }

  // ---- what a run writes ----

  /** The table write of a command. */
  function WriteOf(sk: Skeleton, c: Command): Write {
    if c.UpdatePolicies? && c.ns in sk && sk[c.ns].Some?
    then Replace(c.ns, Convert(c.ptype, c.olds), Convert(c.ptype, c.news)) else Plain(EntryOf(sk, c))
  }

  function WriteTrace(e: Engine, sk: Skeleton, log: seq<Command>): seq<Write> {
    if log == [] then []
    else
      var k := |log| - 1;
      WriteTrace(e, sk, log[..k]) + [WriteOf(SkeletonRun(e, sk, log[..k]), log[k])]
  }

  lemma FittingWrite(e: Engine, scope: Policies, a: Policies, n: Node, c: Command)
    requires NamesOk(scope.Keys) && Coherent(e, scope.Keys, a, n) && Fitting(e, scope, n, c)
    ensures Apply(e, n, c).0.table == ApplyWrite(n.table, WriteOf(SkeletonOf(n), c))
    ensures WriteOk(scope.Keys, WriteOf(SkeletonOf(n), c))
  {
    FittingWriteOk(e, scope, n, c);
    if c.UpdatePolicies? {
      UpdateWrite(e, n, c.ns, c.ptype, c.olds, c.news);
    } else {
      TableApply(e, scope, a, n, c);
    }
  }

  lemma UpdateWrite(e: Engine, n: Node, ns: Bytes, ptype: Bytes, olds: seq<seq<Bytes>>, news: seq<seq<Bytes>>)
    ensures var c := UpdatePolicies(ns, ptype, olds, news);
            Apply(e, n, c).0.table == ApplyWrite(n.table, WriteOf(SkeletonOf(n), c))
  {
    if Modelled(n, ns) {
      UpdateApplied(e, n, ns, ptype, olds, news);
    } else {
      assert ApplyEntry(n.table, NOTHING) == n.table;
    }
  }

  lemma FittingWriteOk(e: Engine, scope: Policies, n: Node, c: Command)
    requires Fitting(e, scope, n, c)
    ensures WriteOk(scope.Keys, WriteOf(SkeletonOf(n), c))
  {}

  lemma RunWritesSnoc(t: Table, log: seq<Write>, w: Write)
    ensures RunWrites(t, log + [w]) == ApplyWrite(RunWrites(t, log), w)
  {
    assert (log + [w])[..|log|] == log;
  }

  /** A run writes the trace of its commands, which depends on the skeleton alone. */
  lemma {:induction false} FittingTrace(e: Engine, scope: Policies, a: Policies, n: Node, log: seq<Command>)
    requires EngineOk(e) && NamesOk(scope.Keys) && Coherent(e, scope.Keys, a, n) && Inside(a, scope) && AllFitting(e, scope, n, log)
    ensures Run(e, n, log).table == RunWrites(n.table, WriteTrace(e, SkeletonOf(n), log))
    ensures SkeletonOf(Run(e, n, log)) == SkeletonRun(e, SkeletonOf(n), log)
    ensures AllWritesOk(scope.Keys, WriteTrace(e, SkeletonOf(n), log))
  {
    if log != [] {
      var k := |log| - 1;
      var m, trace := Run(e, n, log[..k]), WriteTrace(e, SkeletonOf(n), log[..k]);
      FittingTrace(e, scope, a, n, log[..k]);
      FittingRun(e, scope, a, n, log[..k]);
      FittingWrite(e, scope, RulesRun(e, a, n, log[..k]), m, log[k]);
      SkeletonApply(e, m, log[k]);
      RunWritesSnoc(n.table, trace, WriteOf(SkeletonOf(m), log[k]));
    }
  }

  lemma {:induction false} WriteTracePrefix(e: Engine, sk: Skeleton, log: seq<Command>, j: nat)
    requires j <= |log|
    ensures |WriteTrace(e, sk, log)| == |log|
    ensures WriteTrace(e, sk, log[..j]) == WriteTrace(e, sk, log)[..j]
  {
    if j == |log| {
      assert log[..j] == log;
      if log != [] { WriteTracePrefix(e, sk, log[..|log| - 1], |log| - 1); }
    } else {
      var front := log[..|log| - 1];
      WriteTracePrefix(e, sk, front, j);
      assert front[..j] == log[..j];
    }
  }

  lemma {:induction false} FittingPrefix(e: Engine, scope: Policies, n: Node, log: seq<Command>, j: nat)
    requires j <= |log| && AllFitting(e, scope, n, log)
    ensures AllFitting(e, scope, n, log[..j])
  {
    if j == |log| {
      assert log[..j] == log;
    } else {
      var front := log[..|log| - 1];
      FittingPrefix(e, scope, n, front, j);
      assert front[..j] == log[..j];
    }
  }

  // ---- restart ----

  lemma FittingFromEmpty(e: Engine, scope: Policies, log: seq<Command>) returns (a: Policies)
    requires EngineOk(e) && NamesOk(scope.Keys) && AllFitting(e, scope, EMPTY, log)
    ensures Coherent(e, scope.Keys, a, Run(e, EMPTY, log)) && Inside(a, scope)
    ensures Run(e, EMPTY, log).table == RunWrites(map[], WriteTrace(e, map[], log))
    ensures SkeletonOf(Run(e, EMPTY, log)) == SkeletonRun(e, map[], log)
    ensures AllWritesOk(scope.Keys, WriteTrace(e, map[], log))
  {
    assert SkeletonOf(EMPTY) == map[];
    FittingRun(e, scope, map[], EMPTY, log);
    FittingTrace(e, scope, map[], EMPTY, log);
    a := RulesRun(e, map[], EMPTY, log);
  }

  /** Main result: for every log whose updates find all or none, before the crash and on replay, and
      every crash point, the restarted node shows what the uncrashed one shows if and only if the
      keys the entries already applied left of their own are settled in the log. */
  lemma UpdateRestartExact(e: Engine, scope: Policies, log: seq<Command>, applied: nat, meta: Metadata)
    requires EngineOk(e) && NamesOk(scope.Keys) && applied <= |log| && AllFitting(e, scope, EMPTY, log)
    requires AllFitting(e, scope, Node(Run(e, EMPTY, log[..applied]).table, map[], meta), log)
    ensures var trace := WriteTrace(e, map[], log);
            && applied <= |trace|
            && (SameView(Run(e, Node(Run(e, EMPTY, log[..applied]).table, map[], meta), log), Run(e, EMPTY, log)) <==>
                OwnSettled(LogOps(trace[..applied]), LogOps(trace)))
  {
    var r, trace := Node(Run(e, EMPTY, log[..applied]).table, map[], meta), WriteTrace(e, map[], log);
    FittingPrefix(e, scope, EMPTY, log, applied);
    WriteTracePrefix(e, map[], log, applied);
    var a := FittingFromEmpty(e, scope, log[..applied]);
    var b := FittingFromEmpty(e, scope, log);
    assert SkeletonOf(r) == map[] && Coherent(e, scope.Keys, a, r);
    FittingRun(e, scope, a, r, log);
    FittingTrace(e, scope, a, r, log);
    EmptyReplayExact(scope.Keys, trace, applied);
    if Run(e, r, log).table == Run(e, EMPTY, log).table {
      RowsAndSkeleton(e, scope.Keys, RulesRun(e, a, r, log), Run(e, r, log), b, Run(e, EMPTY, log));
    }
  }
}
