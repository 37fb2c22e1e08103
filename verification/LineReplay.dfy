/** Restarts of logs with any filtered removals. Additions write only what is not in memory, and a
    restarted node's memory was loaded from the rows that survived, so the writes of a replay are not
    those of the run. But without batch updates every line goes its own way: whether it is in memory
    and whether it has a row, read off the log, decides exactly what a restart brings back
    (server/store/store.go:226-264, server/store/fsm.go:155-244, 392-455). */
module LineReplay {
  import opened ByteStrings
  import opened Keys
  import opened Badger
  import opened Adapter
  import opened Refinement
  import opened Filtering
  import opened Fsm
  import opened Casbin
  import opened Coherence
  import opened Snapshots
  import opened Replay
  import opened Restart

  // ---- one line ----

  /** A line of a namespace: in memory, and on disk. */
  datatype Bits = Bits(mem: bool, row: bool)

  const ABSENT := Bits(false, false)

  predicate HasModel(sk: Skeleton, ns: Bytes) { ns in sk && sk[ns].Some? }

  function BitsStep(e: Engine, sk: Skeleton, c: Command, ns: Bytes, l: Line, b: Bits): Bits {
    match c
    case SetModel(m, text) =>
      if m == ns && ns in sk && ns != [] && e.parse(text).Some? then Bits(b.row, b.row) else b
    case AddPolicies(m, ptype, rules) =>
      if m == ns && HasModel(sk, ns) && l in Convert(ptype, rules) then Bits(true, b.row || !b.mem) else b
    case RemovePolicies(m, ptype, rules) =>
      if m == ns && HasModel(sk, ns) && l in Convert(ptype, rules) then ABSENT else b
    case RemoveFiltered(m, ptype, index, values) =>
      if m == ns && HasModel(sk, ns) && values != []
      then Bits(b.mem && !MemMatch(l, ptype, index, values), b.row && !FilterMatch(RowKey(ns, l), ns, ptype, index, values))
      else b
    case _ => b
  }

  function BitsRun(e: Engine, sk: Skeleton, log: seq<Command>, ns: Bytes, l: Line, b: Bits): Bits {
    if log == [] then b
    else
      var k := |log| - 1;
      BitsStep(e, SkeletonRun(e, sk, log[..k]), log[k], ns, l, BitsRun(e, sk, log[..k], ns, l, b))
  }

  /** Casbin can compare a line that is in memory with the entry's filter. */
  predicate ReadsStep(sk: Skeleton, c: Command, ns: Bytes, l: Line, b: Bits) {
    c.RemoveFiltered? && c.ns == ns && HasModel(sk, ns) && c.values != [] && b.mem ==>
      Readable(l, c.ptype, c.index, c.values)
  }

  /** It can at every entry, so that none makes it panic over the line. */
  predicate Reads(e: Engine, sk: Skeleton, log: seq<Command>, ns: Bytes, l: Line, b: Bits) {
    log == [] ||
      (var k := |log| - 1;
       && Reads(e, sk, log[..k], ns, l, b)
       && ReadsStep(SkeletonRun(e, sk, log[..k]), log[k], ns, l, BitsRun(e, sk, log[..k], ns, l, b)))
  }

  lemma {:induction false} BitsRunConcat(e: Engine, sk: Skeleton, u: seq<Command>, v: seq<Command>, ns: Bytes, l: Line, b: Bits)
    ensures BitsRun(e, sk, u + v, ns, l, b) == BitsRun(e, SkeletonRun(e, sk, u), v, ns, l, BitsRun(e, sk, u, ns, l, b))
    ensures Reads(e, sk, u + v, ns, l, b) <==>
            Reads(e, sk, u, ns, l, b) && Reads(e, SkeletonRun(e, sk, u), v, ns, l, BitsRun(e, sk, u, ns, l, b))
  {
    if v == [] {
      assert u + v == u;
    } else {
      var k := |v| - 1;
      assert (u + v)[..|u| + k] == u + v[..k] && (u + v)[|u| + k] == v[k];
      TraceConcat(e, sk, u, v[..k]);
      BitsRunConcat(e, sk, u, v[..k], ns, l, b);
    }
  }

  lemma ReadsPrefix(e: Engine, sk: Skeleton, log: seq<Command>, k: nat, ns: Bytes, l: Line, b: Bits)
    requires k <= |log| && Reads(e, sk, log, ns, l, b)
    ensures Reads(e, sk, log[..k], ns, l, b)
  {
    assert log == log[..k] + log[k..];
    BitsRunConcat(e, sk, log[..k], log[k..], ns, l, b);
  }

  /** Whether a name is registered: once it is, for good. */
  function NameRun(e: Engine, sk: Skeleton, log: seq<Command>, ns: Bytes, b: bool): bool {
    if log == [] then b
    else
      var k := |log| - 1;
      NameRun(e, sk, log[..k], ns, b) ||
      (log[k].SetModel? && log[k].ns == ns && ns != [] && ns in SkeletonRun(e, sk, log[..k]))
  }

  // ---- what a node holds ----

  /** Memory and rows hold lines of the scope, each side on its own. */
  ghost predicate EnforcerTidy(e: Engine, scope: Policies, t: Table, ns: Bytes, enf: Enforcer) {
    && ns in scope && enf.rules <= scope[ns]
    && match enf.model
       case None => enf.rules == {}
       case Some(m) => e.parse(m) == Some(m) && RegistryKey(ns) in t
  }

  ghost predicate Tidy(e: Engine, scope: Policies, a: Policies, n: Node) {
    && RowsOk(e, scope.Keys, a, n.table) && Inside(a, scope)
    && forall ns | ns in n.enforcers :: EnforcerTidy(e, scope, n.table, ns, n.enforcers[ns])
  }

  ghost function BitsOf(a: Policies, n: Node, ns: Bytes, l: Line): Bits {
    Bits(ns in n.enforcers && l in n.enforcers[ns].rules, l in Rules(a, ns))
  }

  /** The rows' rules after a command. */
  ghost function RowsApply(a: Policies, n: Node, c: Command): Policies {
    if c.AddPolicies? && c.ns in n.enforcers && n.enforcers[c.ns].model.Some?
    then a[c.ns := Rules(a, c.ns) + (ToLineSet(Convert(c.ptype, c.rules)) - n.enforcers[c.ns].rules)]
    else AbsApply(a, n, c)
  }

  ghost function RowsRun(e: Engine, a: Policies, n: Node, log: seq<Command>): Policies {
    if log == [] then a
    else
      var k := |log| - 1;
      RowsApply(RowsRun(e, a, n, log[..k]), Run(e, n, log[..k]), log[k])
  }

  /** A filter that Casbin can compare with the rules in memory. */
  ghost predicate ReadableNow(n: Node, c: Command) {
    c.RemoveFiltered? && Modelled(n, c.ns) && c.values != [] ==>
      AllReadable(n.enforcers[c.ns].rules, c.ptype, c.index, c.values)
  }

  ghost predicate AllRead(e: Engine, scope: Policies, a: Policies, n: Node, log: seq<Command>) {
    forall ns, l | ns in scope && l in scope[ns] :: Reads(e, SkeletonOf(n), log, ns, l, BitsOf(a, n, ns, l))
  }

  // ---- every command keeps a node tidy ----

  /** Only the rows and one enforcer's rules have changed, within the scope, and no name is
      forgotten. */
  lemma ChangedTidy(e: Engine, scope: Policies, a: Policies, n: Node, ns: Bytes, b: Policies, t: Table, rules: set<Line>)
    requires Tidy(e, scope, a, n) && Modelled(n, ns) && rules <= Rules(scope, ns)
    requires RowsOk(e, scope.Keys, b, t) && Inside(b, scope)
    requires forall m :: RegistryKey(m) in n.table ==> RegistryKey(m) in t
    ensures Tidy(e, scope, b, n.(table := t, enforcers := n.enforcers[ns := n.enforcers[ns].(rules := rules)]))
  {
    var enfs := n.enforcers[ns := n.enforcers[ns].(rules := rules)];
    forall m | m in enfs ensures EnforcerTidy(e, scope, t, m, enfs[m]) {
      assert EnforcerTidy(e, scope, n.table, m, n.enforcers[m]);
    }
  }

  lemma MemoryInside(e: Engine, scope: Policies, a: Policies, n: Node, ns: Bytes)
    requires Tidy(e, scope, a, n) && ns in n.enforcers
    ensures ns in scope && n.enforcers[ns].rules <= Rules(scope, ns)
  {
    assert EnforcerTidy(e, scope, n.table, ns, n.enforcers[ns]);
  }

  lemma AddTidy(e: Engine, scope: Policies, a: Policies, n: Node, ns: Bytes, lines: seq<Line>)
    requires NamesOk(scope.Keys) && Tidy(e, scope, a, n) && Modelled(n, ns)
    requires AllSound(e, lines) && ToLineSet(lines) <= Rules(scope, ns)
    ensures Tidy(e, scope, a[ns := Rules(a, ns) + (ToLineSet(lines) - n.enforcers[ns].rules)], ApplyAdd(n, ns, lines).0)
  {
    var enf := n.enforcers[ns];
    var call := Add(ns, Missing(lines, enf.rules));
    MemoryInside(e, scope, a, n, ns);
    AddMissingRows(e, scope.Keys, a, n.table, ns, lines, enf.rules);
    CallKeepsRegistry(n.table, scope.Keys, call);
    ChangedTidy(e, scope, a, n, ns, a[ns := Rules(a, ns) + (ToLineSet(lines) - enf.rules)], Step(n.table, call), enf.rules + ToLineSet(lines));
  }

  lemma RemoveTidy(e: Engine, scope: Policies, a: Policies, n: Node, ns: Bytes, lines: seq<Line>)
    requires NamesOk(scope.Keys) && Tidy(e, scope, a, n) && Modelled(n, ns) && AllSound(e, lines)
    ensures Tidy(e, scope, a[ns := Rules(a, ns) - ToLineSet(lines)], ApplyRemove(n, ns, lines).0)
  {
    var enf := n.enforcers[ns];
    MemoryInside(e, scope, a, n, ns);
    RemoveRows(e, scope.Keys, a, n.table, ns, lines);
    CallKeepsRegistry(n.table, scope.Keys, Remove(ns, lines));
    ChangedTidy(e, scope, a, n, ns, a[ns := Rules(a, ns) - ToLineSet(lines)], Step(n.table, Remove(ns, lines)), enf.rules - ToLineSet(lines));
  }

  lemma FilterTidy(e: Engine, scope: Policies, a: Policies, n: Node, ns: Bytes, ptype: Bytes, index: int, values: seq<Bytes>)
    requires NamesOk(scope.Keys) && Tidy(e, scope, a, n) && Modelled(n, ns) && values != []
    requires FiltersByField(e) && AllReadable(n.enforcers[ns].rules, ptype, index, values)
    ensures Tidy(e, scope, a[ns := Keep(Rules(a, ns), l => FilterMatch(RowKey(ns, l), ns, ptype, index, values))],
                 ApplyFilter(e, n, ns, ptype, index, values).0)
  {
    var b := a[ns := Keep(Rules(a, ns), l => FilterMatch(RowKey(ns, l), ns, ptype, index, values))];
    var t, rules := EraseFiltered(n.table, ns, ptype, index, values), e.filter(n.enforcers[ns].rules, ptype, index, values).0;
    MemoryInside(e, scope, a, n, ns);
    FilterRows(e, scope.Keys, a, n.table, ns, ptype, index, values);
    FilterKeepsRegistryRows(n.table, scope.Keys, ns, ptype, index, values);
    KeepInside(a, scope, ns, l => FilterMatch(RowKey(ns, l), ns, ptype, index, values));
    assert rules <= Rules(scope, ns);
    ChangedTidy(e, scope, a, n, ns, b, t, rules);
  }

  lemma KeepInside(a: Policies, scope: Policies, ns: Bytes, gone: Line -> bool)
    requires Inside(a, scope)
    ensures Inside(a[ns := Keep(Rules(a, ns), gone)], scope)
  {}

  lemma MoreNamesTidy(e: Engine, scope: Policies, a: Policies, n: Node, t: Table)
    requires Tidy(e, scope, a, n) && forall m :: RegistryKey(m) in n.table ==> RegistryKey(m) in t
    ensures forall m | m in n.enforcers :: EnforcerTidy(e, scope, t, m, n.enforcers[m])
  {
    forall m | m in n.enforcers ensures EnforcerTidy(e, scope, t, m, n.enforcers[m]) {
      assert EnforcerTidy(e, scope, n.table, m, n.enforcers[m]);
    }
  }

  lemma SetModelTidy(e: Engine, scope: Policies, a: Policies, n: Node, ns: Bytes, text: Bytes)
    requires EngineOk(e) && NamesOk(scope.Keys) && Tidy(e, scope, a, n) && ns in scope
    ensures Tidy(e, scope, a, ApplySetModel(e, n, ns, text).0)
  {
    var t := Register(n.table, ns);
    Registering(e, scope.Keys, a, n.table, ns);
    MoreNamesTidy(e, scope, a, n, t);
    if ns in n.enforcers && e.parse(text).Some? { NewModelTidy(e, scope, a, t, ns, text); }
  }

  lemma NewModelTidy(e: Engine, scope: Policies, a: Policies, t: Table, ns: Bytes, text: Bytes)
    requires EngineOk(e) && Inside(a, scope) && ns in scope && e.parse(text).Some? && RegistryKey(ns) in t
    ensures EnforcerTidy(e, scope, t, ns, Enforcer(e.parse(text), Rules(a, ns)))
  {}

  lemma ApplyTidy(e: Engine, scope: Policies, a: Policies, n: Node, c: Command)
    requires EngineOk(e) && NamesOk(scope.Keys) && Tidy(e, scope, a, n) && Permitted(e, scope, c) && ReadableNow(n, c)
    ensures Tidy(e, scope, RowsApply(a, n, c), Apply(e, n, c).0)
  {
    match c
    case SetModel(ns, text) => SetModelTidy(e, scope, a, n, ns, text);
    case AddPolicies(ns, ptype, rules) => if Modelled(n, ns) { AddTidy(e, scope, a, n, ns, Convert(ptype, rules)); }
    case RemovePolicies(ns, ptype, rules) => if Modelled(n, ns) { RemoveTidy(e, scope, a, n, ns, Convert(ptype, rules)); }
    case RemoveFiltered(ns, ptype, index, values) =>
      if Modelled(n, ns) && values != [] { FilterTidy(e, scope, a, n, ns, ptype, index, values); }
    case _ => OtherTidy(e, scope, a, n, c);
  }

  // ---- every line goes its own way ----

  lemma SetModelBits(e: Engine, names: set<Bytes>, a: Policies, n: Node, ns: Bytes, text: Bytes, m: Bytes, l: Line)
    requires NamesOk(names) && RowsOk(e, names, a, n.table) && ns in names
    ensures BitsOf(a, ApplySetModel(e, n, ns, text).0, m, l) ==
            BitsStep(e, SkeletonOf(n), SetModel(ns, text), m, l, BitsOf(a, n, m, l))
  {
    Registering(e, names, a, n.table, ns);
  }

  lemma AddBits(e: Engine, a: Policies, n: Node, ns: Bytes, ptype: Bytes, rules: seq<seq<Bytes>>, m: Bytes, l: Line)
    ensures BitsOf(RowsApply(a, n, AddPolicies(ns, ptype, rules)), Apply(e, n, AddPolicies(ns, ptype, rules)).0, m, l) ==
            BitsStep(e, SkeletonOf(n), AddPolicies(ns, ptype, rules), m, l, BitsOf(a, n, m, l))
  {}

  lemma RemoveBits(e: Engine, a: Policies, n: Node, ns: Bytes, ptype: Bytes, rules: seq<seq<Bytes>>, m: Bytes, l: Line)
    ensures BitsOf(RowsApply(a, n, RemovePolicies(ns, ptype, rules)), Apply(e, n, RemovePolicies(ns, ptype, rules)).0, m, l) ==
            BitsStep(e, SkeletonOf(n), RemovePolicies(ns, ptype, rules), m, l, BitsOf(a, n, m, l))
  {}

  lemma FilterBits(e: Engine, a: Policies, n: Node, ns: Bytes, ptype: Bytes, index: int, values: seq<Bytes>,
                   m: Bytes, l: Line)
    requires FiltersByField(e) && ReadableNow(n, RemoveFiltered(ns, ptype, index, values))
    ensures BitsOf(RowsApply(a, n, RemoveFiltered(ns, ptype, index, values)),
                   Apply(e, n, RemoveFiltered(ns, ptype, index, values)).0, m, l) ==
            BitsStep(e, SkeletonOf(n), RemoveFiltered(ns, ptype, index, values), m, l, BitsOf(a, n, m, l))
  {}

  lemma ApplyBits(e: Engine, scope: Policies, a: Policies, n: Node, c: Command, ns: Bytes, l: Line)
    requires NamesOk(scope.Keys) && Tidy(e, scope, a, n) && Permitted(e, scope, c) && ReadableNow(n, c)
    ensures BitsOf(RowsApply(a, n, c), Apply(e, n, c).0, ns, l) == BitsStep(e, SkeletonOf(n), c, ns, l, BitsOf(a, n, ns, l))
  {
    match c
    case SetModel(m, text) => SetModelBits(e, scope.Keys, a, n, m, text, ns, l);
    case AddPolicies(m, ptype, rules) => AddBits(e, a, n, m, ptype, rules, ns, l);
    case RemovePolicies(m, ptype, rules) => RemoveBits(e, a, n, m, ptype, rules, ns, l);
    case RemoveFiltered(m, ptype, index, values) => FilterBits(e, a, n, m, ptype, index, values, ns, l);
    case _ => OtherBits(e, a, n, c, ns, l);
  }

  lemma OtherBits(e: Engine, a: Policies, n: Node, c: Command, ns: Bytes, l: Line)
    requires TouchesNoRule(c)
    ensures RowsApply(a, n, c) == a && BitsOf(a, Apply(e, n, c).0, ns, l) == BitsOf(a, n, ns, l)
  {}

  lemma OtherTidy(e: Engine, scope: Policies, a: Policies, n: Node, c: Command)
    requires Tidy(e, scope, a, n) && Permitted(e, scope, c) && TouchesNoRule(c)
    ensures Tidy(e, scope, RowsApply(a, n, c), Apply(e, n, c).0)
  {}

  lemma RegistryKeyInjective(m: Bytes, ns: Bytes)
    ensures RegistryKey(m) == RegistryKey(ns) <==> m == ns
  {
    assert RegistryKey(m)[1..] == m && RegistryKey(ns)[1..] == ns;
  }

  lemma SetModelName(e: Engine, names: set<Bytes>, a: Policies, n: Node, m: Bytes, text: Bytes, ns: Bytes)
    requires NamesOk(names) && RowsOk(e, names, a, n.table) && m in names
    ensures RegistryKey(ns) in ApplySetModel(e, n, m, text).0.table <==>
            RegistryKey(ns) in n.table || (m == ns && ns != [] && ns in n.enforcers)
  {
    Registering(e, names, a, n.table, m);
    RegistryKeyInjective(m, ns);
  }

  /** The other commands register nothing and forget nothing. */
  lemma PolicyName(e: Engine, names: set<Bytes>, n: Node, c: Command, ns: Bytes)
    requires RegistryRows(n.table, names) && (c.AddPolicies? || c.RemovePolicies? || c.RemoveFiltered?)
    ensures RegistryKey(ns) in Apply(e, n, c).0.table <==> RegistryKey(ns) in n.table
  {
    match c
    case AddPolicies(m, ptype, rules) =>
      if Modelled(n, m) { CallKeepsRegistry(n.table, names, Add(m, Missing(Convert(ptype, rules), n.enforcers[m].rules))); }
    case RemovePolicies(m, ptype, rules) => CallKeepsRegistry(n.table, names, Remove(m, Convert(ptype, rules)));
    case RemoveFiltered(m, ptype, index, values) => FilterKeepsRegistryRows(n.table, names, m, ptype, index, values);
  }

  lemma ApplyName(e: Engine, scope: Policies, a: Policies, n: Node, c: Command, ns: Bytes)
    requires NamesOk(scope.Keys) && RowsOk(e, scope.Keys, a, n.table) && Permitted(e, scope, c)
    ensures RegistryKey(ns) in Apply(e, n, c).0.table <==>
            RegistryKey(ns) in n.table || (c.SetModel? && c.ns == ns && ns != [] && ns in SkeletonOf(n))
  {
    if c.SetModel? {
      SetModelName(e, scope.Keys, a, n, c.ns, c.text, ns);
    } else if c.AddPolicies? || c.RemovePolicies? || c.RemoveFiltered? {
      PolicyName(e, scope.Keys, n, c, ns);
    }
  }

  /** Whoever is in memory by its own bits can be compared. */
  lemma ReadableByBits(e: Engine, scope: Policies, a: Policies, n: Node, c: Command)
    requires Tidy(e, scope, a, n)
    requires forall ns, l | ns in scope && l in scope[ns] :: ReadsStep(SkeletonOf(n), c, ns, l, BitsOf(a, n, ns, l))
    ensures ReadableNow(n, c)
  {
    if c.RemoveFiltered? && Modelled(n, c.ns) && c.values != [] {
      MemoryInside(e, scope, a, n, c.ns);
      forall l | l in n.enforcers[c.ns].rules ensures Readable(l, c.ptype, c.index, c.values) {
        assert ReadsStep(SkeletonOf(n), c, c.ns, l, BitsOf(a, n, c.ns, l));
      }
    }
  }

  /** Main result: over every run at which Casbin does not panic, from every tidy node, each line is
      in memory and on disk exactly as its own two bits say. */
  lemma {:induction false} RunLines(e: Engine, scope: Policies, a: Policies, n: Node, log: seq<Command>)
    requires EngineOk(e) && NamesOk(scope.Keys) && Tidy(e, scope, a, n)
    requires AllPermitted(e, scope, log) && AllRead(e, scope, a, n, log)
    ensures Tidy(e, scope, RowsRun(e, a, n, log), Run(e, n, log))
    ensures SkeletonOf(Run(e, n, log)) == SkeletonRun(e, SkeletonOf(n), log)
    ensures forall ns, l :: BitsOf(RowsRun(e, a, n, log), Run(e, n, log), ns, l) ==
                            BitsRun(e, SkeletonOf(n), log, ns, l, BitsOf(a, n, ns, l))
    ensures forall ns :: RegistryKey(ns) in Run(e, n, log).table <==>
                         NameRun(e, SkeletonOf(n), log, ns, RegistryKey(ns) in n.table)
  {
    if log != [] {
      var k := |log| - 1;
      var b, m, c := RowsRun(e, a, n, log[..k]), Run(e, n, log[..k]), log[k];
      RunLines(e, scope, a, n, log[..k]);
      forall ns, l | ns in scope && l in scope[ns] ensures ReadsStep(SkeletonOf(m), c, ns, l, BitsOf(b, m, ns, l)) {
        assert Reads(e, SkeletonOf(n), log, ns, l, BitsOf(a, n, ns, l));
      }
      ReadableByBits(e, scope, b, m, c);
      ApplyTidy(e, scope, b, m, c);
      SkeletonApply(e, m, c);
      forall ns, l ensures BitsOf(RowsRun(e, a, n, log), Run(e, n, log), ns, l) ==
                           BitsRun(e, SkeletonOf(n), log, ns, l, BitsOf(a, n, ns, l)) {
        ApplyBits(e, scope, b, m, c, ns, l);
      }
      forall ns ensures RegistryKey(ns) in Run(e, n, log).table <==>
                        NameRun(e, SkeletonOf(n), log, ns, RegistryKey(ns) in n.table) {
        ApplyName(e, scope, b, m, c, ns);
      }
    }
  }

  // ---- when two nodes show the same ----

  ghost predicate SameNames(t: Table, u: Table) { forall ns :: RegistryKey(ns) in t <==> RegistryKey(ns) in u }

  ghost predicate SameRows(scope: Policies, a: Policies, b: Policies) {
    forall ns, l | ns in scope && l in scope[ns] :: l in Rules(a, ns) <==> l in Rules(b, ns)
  }

  lemma TableWithin(e: Engine, scope: Policies, a: Policies, t: Table, b: Policies, u: Table)
    requires NamesOk(scope.Keys) && RowsOk(e, scope.Keys, a, t) && RowsOk(e, scope.Keys, b, u) && Inside(a, scope)
    requires SameNames(t, u) && SameRows(scope, a, b)
    ensures forall k | k in t :: k in u && u[k] == t[k]
  {
    forall k | k in t ensures k in u && u[k] == t[k] {
      if POLICY_PREFIX <= k {
        var ns, l :| ns in scope.Keys && l in Rules(a, ns) && Stores(t, k, ns, l);
        assert l in Rules(b, ns);
        assert Stores(u, RowKey(ns, l), ns, l);
      } else {
        var ns :| ns in scope.Keys && k == RegistryKey(ns);
        assert RegistryKey(ns) in u;
      }
    }
  }

  /** Rows tell their rules and names, and nothing else. */
  lemma TablesAgree(e: Engine, scope: Policies, a: Policies, t: Table, b: Policies, u: Table)
    requires NamesOk(scope.Keys) && RowsOk(e, scope.Keys, a, t) && RowsOk(e, scope.Keys, b, u)
    requires Inside(a, scope) && Inside(b, scope)
    ensures t == u <==> SameNames(t, u) && SameRows(scope, a, b)
  {
    if SameNames(t, u) && SameRows(scope, a, b) {
      TableWithin(e, scope, a, t, b, u);
      TableWithin(e, scope, b, u, a, t);
    }
    if t == u {
      forall ns, l | ns in scope && l in scope[ns] ensures l in Rules(a, ns) <==> l in Rules(b, ns) {
        LoadedIsRules(t, a, scope.Keys, ns);
        LoadedIsRules(u, b, scope.Keys, ns);
      }
    }
  }

  ghost predicate SameMemory(scope: Policies, n: Node, m: Node) {
    forall ns, l | ns in scope && l in scope[ns] ::
      (ns in n.enforcers && l in n.enforcers[ns].rules) <==> (ns in m.enforcers && l in m.enforcers[ns].rules)
  }

  lemma EnforcersAgree(e: Engine, scope: Policies, a: Policies, n: Node, b: Policies, m: Node)
    requires Tidy(e, scope, a, n) && Tidy(e, scope, b, m) && SkeletonOf(n) == SkeletonOf(m)
    ensures n.enforcers == m.enforcers <==> SameMemory(scope, n, m)
  {
    assert n.enforcers.Keys == SkeletonOf(n).Keys == SkeletonOf(m).Keys == m.enforcers.Keys;
    if SameMemory(scope, n, m) {
      forall ns | ns in n.enforcers ensures n.enforcers[ns] == m.enforcers[ns] {
        assert n.enforcers[ns].model == SkeletonOf(n)[ns] == SkeletonOf(m)[ns] == m.enforcers[ns].model;
        assert EnforcerTidy(e, scope, n.table, ns, n.enforcers[ns]) && EnforcerTidy(e, scope, m.table, ns, m.enforcers[ns]);
        assert n.enforcers[ns].rules == m.enforcers[ns].rules;
      }
    }
  }

  ghost predicate SameBits(scope: Policies, a: Policies, n: Node, b: Policies, m: Node) {
    forall ns, l | ns in scope && l in scope[ns] :: BitsOf(a, n, ns, l) == BitsOf(b, m, ns, l)
  }

  lemma ViewsAgree(e: Engine, scope: Policies, a: Policies, n: Node, b: Policies, m: Node)
    requires NamesOk(scope.Keys) && Tidy(e, scope, a, n) && Tidy(e, scope, b, m) && SkeletonOf(n) == SkeletonOf(m)
    ensures SameView(n, m) <==> SameNames(n.table, m.table) && SameBits(scope, a, n, b, m)
  {
    TablesAgree(e, scope, a, n.table, b, m.table);
    EnforcersAgree(e, scope, a, n, b, m);
    if SameNames(n.table, m.table) && SameBits(scope, a, n, b, m) {
      BitsSplit(scope, a, n, b, m);
    } else if SameView(n, m) {
      BitsJoin(scope, a, n, b, m);
    }
  }

  lemma BitsSplit(scope: Policies, a: Policies, n: Node, b: Policies, m: Node)
    requires SameBits(scope, a, n, b, m)
    ensures SameRows(scope, a, b) && SameMemory(scope, n, m)
  {
    forall ns, l | ns in scope && l in scope[ns]
      ensures l in Rules(a, ns) <==> l in Rules(b, ns)
      ensures (ns in n.enforcers && l in n.enforcers[ns].rules) <==> (ns in m.enforcers && l in m.enforcers[ns].rules)
    {
      assert BitsOf(a, n, ns, l) == BitsOf(b, m, ns, l);
    }
  }

  lemma BitsJoin(scope: Policies, a: Policies, n: Node, b: Policies, m: Node)
    requires SameRows(scope, a, b) && SameMemory(scope, n, m)
    ensures SameBits(scope, a, n, b, m)
  {}

  /** Two tidy nodes that know the same names and models show the same after a log exactly when it
      leaves every line with the same bits on both, and every name registered on both or neither. */
  lemma RunsAgree(e: Engine, scope: Policies, a: Policies, n: Node, b: Policies, m: Node, log: seq<Command>)
    requires EngineOk(e) && NamesOk(scope.Keys) && AllPermitted(e, scope, log)
    requires Tidy(e, scope, a, n) && Tidy(e, scope, b, m) && SkeletonOf(n) == SkeletonOf(m)
    requires AllRead(e, scope, a, n, log) && AllRead(e, scope, b, m, log)
    requires forall ns :: NameRun(e, SkeletonOf(n), log, ns, RegistryKey(ns) in n.table) ==
                          NameRun(e, SkeletonOf(m), log, ns, RegistryKey(ns) in m.table)
    ensures SameView(Run(e, n, log), Run(e, m, log)) <==>
            forall ns, l | ns in scope && l in scope[ns] ::
              BitsRun(e, SkeletonOf(n), log, ns, l, BitsOf(a, n, ns, l)) == BitsRun(e, SkeletonOf(m), log, ns, l, BitsOf(b, m, ns, l))
  {
    var a', b' := RowsRun(e, a, n, log), RowsRun(e, b, m, log);
    RunLines(e, scope, a, n, log);
    RunLines(e, scope, b, m, log);
    assert SameNames(Run(e, n, log).table, Run(e, m, log).table);
    ViewsAgree(e, scope, a', Run(e, n, log), b', Run(e, m, log));
  }

  // ---- names are never lost ----

  lemma {:induction false} NameRunGrows(e: Engine, sk: Skeleton, log: seq<Command>, ns: Bytes, b: bool)
    ensures NameRun(e, sk, log, ns, b) <==> b || NameRun(e, sk, log, ns, false)
  {
    if log != [] { NameRunGrows(e, sk, log[..|log| - 1], ns, b); }
  }

  lemma {:induction false} NameRunConcat(e: Engine, sk: Skeleton, u: seq<Command>, v: seq<Command>, ns: Bytes, b: bool)
    ensures NameRun(e, sk, u + v, ns, b) == NameRun(e, SkeletonRun(e, sk, u), v, ns, NameRun(e, sk, u, ns, b))
  {
    if v == [] {
      assert u + v == u;
    } else {
      var k := |v| - 1;
      assert (u + v)[..|u| + k] == u + v[..k] && (u + v)[|u| + k] == v[k];
      TraceConcat(e, sk, u, v[..k]);
      NameRunConcat(e, sk, u, v[..k], ns, b);
    }
  }

  /** Replaying registers nothing new. */
  lemma NameRunReplays(e: Engine, sk: Skeleton, log: seq<Command>, applied: nat, ns: Bytes)
    requires applied <= |log|
    ensures NameRun(e, sk, log, ns, NameRun(e, sk, log[..applied], ns, false)) == NameRun(e, sk, log, ns, false)
  {
    assert log == log[..applied] + log[applied..];
    NameRunConcat(e, sk, log[..applied], log[applied..], ns, false);
    NameRunGrows(e, SkeletonRun(e, sk, log[..applied]), log[applied..], ns, NameRun(e, sk, log[..applied], ns, false));
    NameRunGrows(e, sk, log, ns, NameRun(e, sk, log[..applied], ns, false));
  }

  // ---- restart without a snapshot ----

  lemma EmptyTidy(e: Engine, scope: Policies)
    ensures Tidy(e, scope, map[], EMPTY) && SkeletonOf(EMPTY) == map[]
    ensures forall ns, l :: BitsOf(map[], EMPTY, ns, l) == ABSENT
  {}

  /** The log runs from an empty node without a panic. */
  ghost predicate ReadsAlone(e: Engine, scope: Policies, log: seq<Command>) {
    forall ns, l | ns in scope && l in scope[ns] :: Reads(e, map[], log, ns, l, ABSENT)
  }

  /** A run from an empty node, line by line. */
  lemma EmptyLines(e: Engine, scope: Policies, log: seq<Command>) returns (a: Policies)
    requires EngineOk(e) && NamesOk(scope.Keys) && AllPermitted(e, scope, log) && ReadsAlone(e, scope, log)
    ensures var n := Run(e, EMPTY, log);
            && Tidy(e, scope, a, n) && SkeletonOf(n) == SkeletonRun(e, map[], log)
            && (forall ns, l :: BitsOf(a, n, ns, l) == BitsRun(e, map[], log, ns, l, ABSENT))
            && (forall ns :: RegistryKey(ns) in n.table <==> NameRun(e, map[], log, ns, false))
  {
    EmptyTidy(e, scope);
    RunLines(e, scope, map[], EMPTY, log);
    a := RowsRun(e, map[], EMPTY, log);
    forall ns, l ensures BitsOf(a, Run(e, EMPTY, log), ns, l) == BitsRun(e, map[], log, ns, l, ABSENT) {
      assert BitsOf(map[], EMPTY, ns, l) == ABSENT;
    }
  }

  lemma ReadsAlonePrefix(e: Engine, scope: Policies, log: seq<Command>, k: nat)
    requires k <= |log| && ReadsAlone(e, scope, log)
    ensures ReadsAlone(e, scope, log[..k])
  {
    forall ns, l | ns in scope && l in scope[ns] ensures Reads(e, map[], log[..k], ns, l, ABSENT) {
      ReadsPrefix(e, map[], log, k, ns, l, ABSENT);
    }
  }

  /** The bits with which a line survives a crash after `applied` entries: memory is gone. */
  function Surviving(e: Engine, log: seq<Command>, applied: nat, ns: Bytes, l: Line): Bits
    requires applied <= |log|
  {
    Bits(false, BitsRun(e, map[], log[..applied], ns, l, ABSENT).row)
  }

  /** Replaying the log over what survived brings the line back to where the log alone puts it. */
  predicate Recovers(e: Engine, log: seq<Command>, applied: nat, ns: Bytes, l: Line)
    requires applied <= |log|
  {
    BitsRun(e, map[], log, ns, l, Surviving(e, log, applied, ns, l)) == BitsRun(e, map[], log, ns, l, ABSENT)
  }

  /** The first `k` entries are replayed over what survived without a panic. */
  ghost predicate ReadsReplayed(e: Engine, scope: Policies, log: seq<Command>, applied: nat, k: nat)
    requires applied <= |log| && k <= |log|
  {
    forall ns, l | ns in scope && l in scope[ns] :: Reads(e, map[], log[..k], ns, l, Surviving(e, log, applied, ns, l))
  }

  /** The restarted node, before it replays. */
  lemma CrashedTidy(e: Engine, scope: Policies, log: seq<Command>, applied: nat, meta: Metadata) returns (a: Policies)
    requires EngineOk(e) && NamesOk(scope.Keys) && AllPermitted(e, scope, log) && applied <= |log|
    requires ReadsAlone(e, scope, log)
    ensures var r := Node(Run(e, EMPTY, log[..applied]).table, map[], meta);
            && Tidy(e, scope, a, r) && SkeletonOf(r) == map[]
            && (forall ns, l :: BitsOf(a, r, ns, l) == Surviving(e, log, applied, ns, l))
            && (forall ns :: RegistryKey(ns) in r.table <==> NameRun(e, map[], log[..applied], ns, false))
  {
    var u := log[..applied];
    ReadsAlonePrefix(e, scope, log, applied);
    a := EmptyLines(e, scope, u);
    forall ns, l ensures (l in Rules(a, ns)) == BitsRun(e, map[], u, ns, l, ABSENT).row {
      assert BitsOf(a, Run(e, EMPTY, u), ns, l) == BitsRun(e, map[], u, ns, l, ABSENT);
    }
  }

  /** Main result: for every log without batch updates, filters of any kind included, and every
      crash point, the restarted node shows what the uncrashed one shows if and only if every line
      recovers. Casbin is to panic on neither run. */
  lemma ColdRestartExact(e: Engine, scope: Policies, log: seq<Command>, applied: nat, meta: Metadata)
    requires EngineOk(e) && NamesOk(scope.Keys) && AllPermitted(e, scope, log) && applied <= |log|
    requires ReadsAlone(e, scope, log) && ReadsReplayed(e, scope, log, applied, |log|)
    ensures SameView(Run(e, Node(Run(e, EMPTY, log[..applied]).table, map[], meta), log), Run(e, EMPTY, log)) <==>
            forall ns, l | ns in scope && l in scope[ns] :: Recovers(e, log, applied, ns, l)
  {
    var r := Node(Run(e, EMPTY, log[..applied]).table, map[], meta);
    var a := CrashedTidy(e, scope, log, applied, meta);
    EmptyTidy(e, scope);
    assert log[..|log|] == log;
    forall ns ensures NameRun(e, SkeletonOf(r), log, ns, RegistryKey(ns) in r.table) ==
                      NameRun(e, SkeletonOf(EMPTY), log, ns, RegistryKey(ns) in EMPTY.table) {
      NameRunReplays(e, map[], log, applied, ns);
    }
    RunsAgree(e, scope, a, r, map[], EMPTY, log);
    forall ns, l ensures Recovers(e, log, applied, ns, l) <==>
                         BitsRun(e, SkeletonOf(r), log, ns, l, BitsOf(a, r, ns, l)) ==
                         BitsRun(e, SkeletonOf(EMPTY), log, ns, l, BitsOf(map[], EMPTY, ns, l)) {}
  }

  /** Filters that Casbin can compare with every line of the scope make no run panic. */
  lemma {:induction false} ScopeReads(e: Engine, scope: Policies, sk: Skeleton, log: seq<Command>, ns: Bytes, l: Line, b: Bits)
    requires AllPermitted(e, scope, log) && ns in scope && l in scope[ns]
    requires forall i | 0 <= i < |log| && log[i].RemoveFiltered? :: ReadableIn(scope, log[i])
    ensures Reads(e, sk, log, ns, l, b)
  {
    if log != [] {
      var k := |log| - 1;
      assert forall i | 0 <= i < k :: log[..k][i] == log[i];
      ScopeReads(e, scope, sk, log[..k], ns, l, b);
    }
  }

  ghost predicate ReadableIn(scope: Policies, c: Command)
    requires c.RemoveFiltered?
  {
    c.ns in scope ==> AllReadable(scope[c.ns], c.ptype, c.index, c.values)
  }

  // ---- a condition that can be read off the log ----

  /** A filter that takes the line's row and leaves the line in memory. */
  predicate RowOnly(c: Command, ns: Bytes, l: Line) {
    && c.RemoveFiltered? && c.ns == ns
    && FilterMatch(RowKey(ns, l), ns, c.ptype, c.index, c.values) && !MemMatch(l, c.ptype, c.index, c.values)
  }

  /** Entry i adds the line to a namespace that has a model by then. */
  predicate AddsAt(e: Engine, log: seq<Command>, i: nat, ns: Bytes, l: Line)
    requires i < |log|
  {
    var c := log[i];
    c.AddPolicies? && c.ns == ns && HasModel(SkeletonRun(e, map[], log[..i]), ns) && l in Convert(c.ptype, c.rules)
  }

  ghost predicate Adds(e: Engine, log: seq<Command>, ns: Bytes, l: Line) {
    exists i: nat | i < |log| :: AddsAt(e, log, i, ns, l)
  }

  /** No filter takes the line's row alone before the log has added the line. */
  ghost predicate AddedFirst(e: Engine, log: seq<Command>, ns: Bytes, l: Line) {
    forall i: nat | i < |log| && RowOnly(log[i], ns, l) :: Adds(e, log[..i], ns, l)
  }

  lemma AddsSnoc(e: Engine, log: seq<Command>, ns: Bytes, l: Line)
    requires log != []
    ensures Adds(e, log, ns, l) <==> Adds(e, log[..|log| - 1], ns, l) || AddsAt(e, log, |log| - 1, ns, l)
  {
    var k := |log| - 1;
    forall i: nat | i < k ensures AddsAt(e, log[..k], i, ns, l) <==> AddsAt(e, log, i, ns, l) {
      assert log[..k][..i] == log[..i];
    }
    if Adds(e, log[..k], ns, l) {
      var i: nat :| i < k && AddsAt(e, log[..k], i, ns, l);
      assert AddsAt(e, log, i, ns, l);
    }
  }

  /** Until the line is added it is nowhere without a crash, and in memory only with its row after
      one; once it is added the two runs agree. */
  lemma {:induction false} AddedFirstMeets(e: Engine, log: seq<Command>, ns: Bytes, l: Line, s: bool)
    requires AddedFirst(e, log, ns, l)
    ensures var x, y := BitsRun(e, map[], log, ns, l, ABSENT), BitsRun(e, map[], log, ns, l, Bits(false, s));
            if Adds(e, log, ns, l) then x == y else x == ABSENT && (y.mem ==> y.row)
  {
    if log != [] {
      var k := |log| - 1;
      AddsSnoc(e, log, ns, l);
      assert AddedFirst(e, log[..k], ns, l) by {
        forall i: nat | i < k && RowOnly(log[..k][i], ns, l) ensures Adds(e, log[..k][..i], ns, l) {
          assert log[..k][..i] == log[..i] && RowOnly(log[i], ns, l);
        }
      }
      AddedFirstMeets(e, log[..k], ns, l, s);
      if RowOnly(log[k], ns, l) { assert Adds(e, log[..k], ns, l); }
    }
  }

  /** A line that the log adds before any filter takes its row alone recovers from every crash. */
  lemma AddedFirstRecovers(e: Engine, log: seq<Command>, applied: nat, ns: Bytes, l: Line)
    requires applied <= |log| && AddedFirst(e, log, ns, l)
    ensures Recovers(e, log, applied, ns, l)
  {
    var u := log[..applied];
    AddedFirstMeets(e, log, ns, l, Surviving(e, log, applied, ns, l).row);
    if !Adds(e, log, ns, l) {
      forall i: nat | i < applied ensures !AddsAt(e, u, i, ns, l) {
        assert u[..i] == log[..i] && !AddsAt(e, log, i, ns, l);
      }
      assert AddedFirst(e, u, ns, l) by {
        forall i: nat | i < applied && RowOnly(u[i], ns, l) ensures Adds(e, u[..i], ns, l) {
          assert u[..i] == log[..i] && RowOnly(log[i], ns, l);
        }
      }
      AddedFirstMeets(e, u, ns, l, false);
    }
  }

  lemma {:induction false} NotAdded(e: Engine, log: seq<Command>, ns: Bytes, l: Line)
    requires !Adds(e, log, ns, l)
    ensures BitsRun(e, map[], log, ns, l, ABSENT) == ABSENT
  {
    if log != [] {
      AddsSnoc(e, log, ns, l);
      NotAdded(e, log[..|log| - 1], ns, l);
    }
  }

  /** An added line has a row at some point. */
  lemma {:induction false} AddedOnce(e: Engine, log: seq<Command>, ns: Bytes, l: Line) returns (k: nat)
    requires Adds(e, log, ns, l)
    ensures k <= |log| && BitsRun(e, map[], log[..k], ns, l, ABSENT).row
  {
    var n := |log| - 1;
    AddsSnoc(e, log, ns, l);
    if Adds(e, log[..n], ns, l) {
      k := AddedOnce(e, log[..n], ns, l);
      assert log[..n][..k] == log[..k];
    } else {
      NotAdded(e, log[..n], ns, l);
      k := |log|;
      assert log[..k] == log;
    }
  }

  // ---- the order of entries that decides ----

  /** What an entry does to a line. */
  datatype Touch = Quiet | Loads | Puts | Clears | TakesRow | TakesMemory

  function TouchOf(e: Engine, sk: Skeleton, c: Command, ns: Bytes, l: Line): Touch {
    match c
    case SetModel(m, text) => if m == ns && ns in sk && ns != [] && e.parse(text).Some? then Loads else Quiet
    case AddPolicies(m, ptype, rules) => if m == ns && HasModel(sk, ns) && l in Convert(ptype, rules) then Puts else Quiet
    case RemovePolicies(m, ptype, rules) => if m == ns && HasModel(sk, ns) && l in Convert(ptype, rules) then Clears else Quiet
    case RemoveFiltered(m, ptype, index, values) =>
      if !(m == ns && HasModel(sk, ns) && values != []) then Quiet
      else if MemMatch(l, ptype, index, values)
      then if FilterMatch(RowKey(ns, l), ns, ptype, index, values) then Clears else TakesMemory
      else if FilterMatch(RowKey(ns, l), ns, ptype, index, values) then TakesRow else Quiet
    case _ => Quiet
  }

  /** The last entry that touches the line; before the first it is the crash, which takes memory. */
  function LastTouch(e: Engine, log: seq<Command>, ns: Bytes, l: Line): Touch {
    if log == [] then TakesMemory
    else
      var k := |log| - 1;
      var t := TouchOf(e, SkeletonRun(e, map[], log[..k]), log[k], ns, l);
      if t.Quiet? then LastTouch(e, log[..k], ns, l) else t
  }

  /** The two entries on a line, one after the other, after which it no longer matters whether its
      row was there at the start. */
  predicate Meets(before: Touch, now: Touch) {
    now.Clears? ||
    match before
    case TakesMemory => now.Puts? || now.TakesRow?
    case Loads => now.Puts?
    case TakesRow => now.Loads? || now.TakesMemory?
    case Puts => now.TakesRow?
    case _ => false
  }

  predicate MeetsAt(e: Engine, log: seq<Command>, i: nat, ns: Bytes, l: Line)
    requires i < |log|
  {
    Meets(LastTouch(e, log[..i], ns, l), TouchOf(e, SkeletonRun(e, map[], log[..i]), log[i], ns, l))
  }

  /** Some entry meets the one before it on the line. */
  predicate Met(e: Engine, log: seq<Command>, ns: Bytes, l: Line) {
    log != [] && (Met(e, log[..|log| - 1], ns, l) || MeetsAt(e, log, |log| - 1, ns, l))
  }

  /** How two runs of one log that have not met differ, by the last entry on the line. */
  predicate Apart(last: Touch, x: Bits, y: Bits) {
    match last
    case TakesMemory => !x.mem && !y.mem && x.row != y.row
    case Loads => x.mem == x.row && y.mem == y.row && x.row != y.row
    case TakesRow => !x.row && !y.row && x.mem != y.mem
    case Puts => x.mem && y.mem && x.row != y.row
    case _ => false
  }

  lemma TouchStep(e: Engine, sk: Skeleton, c: Command, ns: Bytes, l: Line, last: Touch, x: Bits, y: Bits)
    requires Apart(last, x, y)
    ensures var t, x', y' := TouchOf(e, sk, c, ns, l), BitsStep(e, sk, c, ns, l, x), BitsStep(e, sk, c, ns, l, y);
            if Meets(last, t) then x' == y' else Apart(if t.Quiet? then last else t, x', y')
  {}

  lemma {:induction false} TwoRuns(e: Engine, log: seq<Command>, ns: Bytes, l: Line)
    ensures var x, y := BitsRun(e, map[], log, ns, l, ABSENT), BitsRun(e, map[], log, ns, l, Bits(false, true));
            if Met(e, log, ns, l) then x == y else Apart(LastTouch(e, log, ns, l), x, y)
  {
    if log != [] {
      var k := |log| - 1;
      TwoRuns(e, log[..k], ns, l);
      if !Met(e, log[..k], ns, l) {
        TouchStep(e, SkeletonRun(e, map[], log[..k]), log[k], ns, l, LastTouch(e, log[..k], ns, l),
                  BitsRun(e, map[], log[..k], ns, l, ABSENT), BitsRun(e, map[], log[..k], ns, l, Bits(false, true)));
      }
    }
  }

  lemma NeverAdded(e: Engine, log: seq<Command>, applied: nat, ns: Bytes, l: Line)
    requires applied <= |log| && !Adds(e, log, ns, l)
    ensures Recovers(e, log, applied, ns, l)
  {
    forall i: nat | i < applied ensures !AddsAt(e, log[..applied], i, ns, l) {
      assert log[..applied][..i] == log[..i] && !AddsAt(e, log, i, ns, l);
    }
    NotAdded(e, log[..applied], ns, l);
  }

  /** By the order of entries alone: a line recovers from every crash exactly when the log never adds
      it, or removes it from memory and disk at once, or has two entries on it in a row that meet. */
  lemma EveryCrash(e: Engine, log: seq<Command>, ns: Bytes, l: Line)
    ensures (forall applied: nat | applied <= |log| :: Recovers(e, log, applied, ns, l)) <==>
            !Adds(e, log, ns, l) || Met(e, log, ns, l)
  {
    TwoRuns(e, log, ns, l);
    if !Adds(e, log, ns, l) {
      forall applied: nat | applied <= |log| ensures Recovers(e, log, applied, ns, l) {
        NeverAdded(e, log, applied, ns, l);
      }
    } else {
      var k := AddedOnce(e, log, ns, l);
      assert Surviving(e, log, k, ns, l) == Bits(false, true);
      forall applied: nat | applied <= |log|
        ensures Surviving(e, log, applied, ns, l) == Bits(false, true) || Surviving(e, log, applied, ns, l) == ABSENT {}
      if forall applied: nat | applied <= |log| :: Recovers(e, log, applied, ns, l) { assert Recovers(e, log, k, ns, l); }
    }
  }

  // ---- snapshots ----

  lemma ReloadsTidy(e: Engine, scope: Policies, a: Policies, n: Node, t: Table, c: Policies)
    requires NamesOk(scope.Keys) && Tidy(e, scope, a, n) && AllModelled(n) && RowsOk(e, scope.Keys, c, t)
    requires forall ns | RegistryKey(ns) in n.table :: RegistryKey(ns) in t
    ensures forall ns | ns in n.enforcers :: Reloads(e, n, t, c, ns)
  {
    forall ns | ns in n.enforcers ensures Reloads(e, n, t, c, ns) {
      assert EnforcerTidy(e, scope, n.table, ns, n.enforcers[ns]);
      LoadSetIsRules(e, t, c, scope.Keys, ns);
    }
  }

  lemma ReloadedTidy(e: Engine, scope: Policies, a: Policies, n: Node, c: Policies, r: Node)
    requires Tidy(e, scope, a, n) && RowsOk(e, scope.Keys, c, r.table) && Inside(c, scope)
    requires r.enforcers.Keys == n.enforcers.Keys
    requires forall ns | ns in n.enforcers ::
               && n.enforcers[ns].model.Some? && RegistryKey(ns) in r.table
               && r.enforcers[ns] == Enforcer(n.enforcers[ns].model, Rules(c, ns))
    ensures Tidy(e, scope, c, r) && SkeletonOf(r) == SkeletonOf(n)
  {
    forall ns | ns in r.enforcers ensures EnforcerTidy(e, scope, r.table, ns, r.enforcers[ns]) {
      assert EnforcerTidy(e, scope, n.table, ns, n.enforcers[ns]);
    }
  }

  /** A line of a restored node: in memory exactly when it has a row and its namespace is known. */
  function Restored(sk: Skeleton, ns: Bytes, row: bool): Bits { Bits(row && ns in sk, row) }

  /** Restoring the snapshot of any tidy node, in step or not, whatever rows the load leaves. */
  lemma RestoredTidy(e: Engine, scope: Policies, a: Policies, n: Node, m: Node, c: Policies, t: Table)
    requires NamesOk(scope.Keys) && Tidy(e, scope, a, n) && AllModelled(n)
    requires RowsOk(e, scope.Keys, c, t) && Inside(c, scope)
    requires forall ns | RegistryKey(ns) in n.table :: RegistryKey(ns) in t
    ensures Snapshot(n).Some? && RestoreAt(e, m, Snapshot(n).value, t).Some?
    ensures var r := RestoreAt(e, m, Snapshot(n).value, t).value;
            && Tidy(e, scope, c, r) && SkeletonOf(r) == SkeletonOf(n) && r.table == t
            && forall ns, l :: BitsOf(c, r, ns, l) == Restored(SkeletonOf(n), ns, l in Rules(c, ns))
  {
    ReloadsTidy(e, scope, a, n, t, c);
    RestoredNode(e, n, m, t, c);
    var r := RestoreAt(e, m, Snapshot(n).value, t).value;
    ReloadedTidy(e, scope, a, n, c, r);
    forall ns, l ensures BitsOf(c, r, ns, l) == Restored(SkeletonOf(n), ns, l in Rules(c, ns)) {
      assert ns in SkeletonOf(n) <==> ns in r.enforcers;
    }
  }

  lemma RestoreExact(e: Engine, scope: Policies, a: Policies, n: Node)
    requires NamesOk(scope.Keys) && Tidy(e, scope, a, n) && AllModelled(n)
    ensures Snapshot(n).Some? && Restore(e, EMPTY, Snapshot(n).value).Some?
    ensures SameView(Restore(e, EMPTY, Snapshot(n).value).value, n) <==>
            forall ns, l | ns in scope && l in scope[ns] && ns in SkeletonOf(n) ::
              BitsOf(a, n, ns, l).mem == BitsOf(a, n, ns, l).row
  {
    assert EMPTY.table + n.table == n.table;
    RestoredTidy(e, scope, a, n, EMPTY, a, n.table);
    var r := Restore(e, EMPTY, Snapshot(n).value).value;
    ViewsAgree(e, scope, a, r, a, n);
    forall ns, l | ns in scope && l in scope[ns]
      ensures BitsOf(a, r, ns, l) == BitsOf(a, n, ns, l) <==>
              (ns in SkeletonOf(n) ==> BitsOf(a, n, ns, l).mem == BitsOf(a, n, ns, l).row)
    {
      assert BitsOf(a, r, ns, l) == Restored(SkeletonOf(n), ns, l in Rules(a, ns));
    }
  }

  /** Every line of a known namespace is in memory exactly when it has a row. */
  ghost predicate InStepLines(e: Engine, scope: Policies, u: seq<Command>) {
    forall ns, l | ns in scope && l in scope[ns] && ns in SkeletonRun(e, map[], u) ::
      BitsRun(e, map[], u, ns, l, ABSENT).mem == BitsRun(e, map[], u, ns, l, ABSENT).row
  }

  /** A snapshot restored into an empty node shows what its node shows if and only if memory and rows
      agree line by line. */
  lemma SnapshotExact(e: Engine, scope: Policies, u: seq<Command>)
    requires EngineOk(e) && NamesOk(scope.Keys) && AllPermitted(e, scope, u) && ReadsAlone(e, scope, u)
    requires AllModelled(Run(e, EMPTY, u))
    ensures var n := Run(e, EMPTY, u);
            && Snapshot(n).Some? && Restore(e, EMPTY, Snapshot(n).value).Some?
            && (SameView(Restore(e, EMPTY, Snapshot(n).value).value, n) <==> InStepLines(e, scope, u))
  {
    var a := EmptyLines(e, scope, u);
    RestoreExact(e, scope, a, Run(e, EMPTY, u));
  }

  /** The line after replaying `v` on the restored node, against the uncrashed one. */
  predicate RecoversFrom(e: Engine, u: seq<Command>, v: seq<Command>, ns: Bytes, l: Line, row: bool) {
    var sk := SkeletonRun(e, map[], u);
    BitsRun(e, sk, v, ns, l, Restored(sk, ns, row)) == BitsRun(e, sk, v, ns, l, BitsRun(e, map[], u, ns, l, ABSENT))
  }

  lemma NamesFrom(e: Engine, u: seq<Command>, v: seq<Command>, applied: nat, ns: Bytes, b: bool)
    requires applied <= |v|
    requires NameRun(e, map[], u, ns, false) ==> b
    requires b ==> NameRun(e, map[], u + v[..applied], ns, false) || NameRun(e, map[], u, ns, false)
    ensures var sk := SkeletonRun(e, map[], u);
            NameRun(e, sk, v, ns, b) == NameRun(e, sk, v, ns, NameRun(e, map[], u, ns, false))
  {
    var sk, near := SkeletonRun(e, map[], u), NameRun(e, map[], u, ns, false);
    NameRunConcat(e, map[], u, v[..applied], ns, false);
    NameRunGrows(e, sk, v[..applied], ns, near);
    NameRunGrows(e, sk, v, ns, near);
    NameRunGrows(e, sk, v, ns, b);
    NameRunReplays(e, sk, v, applied, ns);
    NameRunGrows(e, sk, v, ns, NameRun(e, sk, v[..applied], ns, false));
  }

  /** Casbin panics over no line when `v` is replayed on the restored node. */
  ghost predicate ReadsRestored(e: Engine, scope: Policies, u: seq<Command>, v: seq<Command>, t: Table) {
    forall ns, l | ns in scope && l in scope[ns] ::
      Reads(e, SkeletonRun(e, map[], u), v, ns, l, Restored(SkeletonRun(e, map[], u), ns, l in Loaded(t, ns)))
  }

  lemma PermittedConcat(e: Engine, scope: Policies, u: seq<Command>, v: seq<Command>)
    requires AllPermitted(e, scope, u) && AllPermitted(e, scope, v)
    ensures AllPermitted(e, scope, u + v)
  {}

  lemma ReadsAfter(e: Engine, scope: Policies, u: seq<Command>, v: seq<Command>, a: Policies, n: Node)
    requires ReadsAlone(e, scope, u + v) && SkeletonOf(n) == SkeletonRun(e, map[], u)
    requires forall ns, l :: BitsOf(a, n, ns, l) == BitsRun(e, map[], u, ns, l, ABSENT)
    ensures AllRead(e, scope, a, n, v)
  {
    forall ns, l | ns in scope && l in scope[ns] ensures Reads(e, SkeletonOf(n), v, ns, l, BitsOf(a, n, ns, l)) {
      BitsRunConcat(e, map[], u, v, ns, l, ABSENT);
    }
  }

  /** What the load leaves of the rows after `u` and after a part of `v`. */
  lemma LoadedTidy(e: Engine, scope: Policies, a: Policies, n: Node, b: Policies, far: Table, t: Table) returns (c: Policies)
    requires NamesOk(scope.Keys) && Tidy(e, scope, a, n) && RowsOk(e, scope.Keys, b, far) && Inside(b, scope)
    requires Merged(t, far, n.table)
    ensures RowsOk(e, scope.Keys, c, t) && Inside(c, scope)
    ensures forall ns, l | ns in scope :: l in Rules(c, ns) <==> l in Loaded(t, ns)
  {
    c := MergedPolicies(b, a, t, scope.Keys);
    RowsMerged(e, scope.Keys, b, far, a, n.table, t);
    forall ns, l | ns in scope ensures l in Rules(c, ns) <==> l in Loaded(t, ns) {
      LoadedIsRules(t, c, scope.Keys, ns);
      assert l in ToLineSet(Loaded(t, ns)) <==> l in Loaded(t, ns);
    }
  }

  /** The run of `u` and the run that goes on into `v`, line by line. */
  lemma BothSides(e: Engine, scope: Policies, u: seq<Command>, v: seq<Command>, applied: nat) returns (a: Policies, b: Policies)
    requires EngineOk(e) && NamesOk(scope.Keys) && AllPermitted(e, scope, u) && AllPermitted(e, scope, v) && applied <= |v|
    requires ReadsAlone(e, scope, u + v)
    ensures var n, far := Run(e, EMPTY, u), Run(e, EMPTY, u + v[..applied]);
            && Tidy(e, scope, a, n) && SkeletonOf(n) == SkeletonRun(e, map[], u)
            && (forall ns, l :: BitsOf(a, n, ns, l) == BitsRun(e, map[], u, ns, l, ABSENT))
            && (forall ns :: RegistryKey(ns) in n.table <==> NameRun(e, map[], u, ns, false))
            && RowsOk(e, scope.Keys, b, far.table) && Inside(b, scope)
            && (forall ns, l :: l in Rules(b, ns) <==> BitsRun(e, map[], u + v[..applied], ns, l, ABSENT).row)
            && (forall ns :: RegistryKey(ns) in far.table <==> NameRun(e, map[], u + v[..applied], ns, false))
  {
    var w := u + v[..applied];
    PermittedConcat(e, scope, u, v);
    assert (u + v)[..|u|] == u && (u + v)[..|u| + applied] == w;
    ReadsAlonePrefix(e, scope, u + v, |u|);
    ReadsAlonePrefix(e, scope, u + v, |u| + applied);
    a := EmptyLines(e, scope, u);
    b := EmptyLines(e, scope, w);
    forall ns, l ensures l in Rules(b, ns) <==> BitsRun(e, map[], w, ns, l, ABSENT).row {
      assert BitsOf(b, Run(e, EMPTY, w), ns, l) == BitsRun(e, map[], w, ns, l, ABSENT);
    }
  }

  /** Main result with a snapshot: for every two logs without batch updates, every crash point and
      every outcome of the load, restoring the snapshot of the first and replaying the second shows
      what the uncrashed node shows if and only if every line recovers from the row it was read with. */
  lemma MergedRestartExact(e: Engine, scope: Policies, u: seq<Command>, v: seq<Command>, applied: nat, m: Node, t: Table)
    requires EngineOk(e) && NamesOk(scope.Keys) && AllPermitted(e, scope, u) && AllPermitted(e, scope, v)
    requires applied <= |v| && AllModelled(Run(e, EMPTY, u))
    requires ReadsAlone(e, scope, u + v) && ReadsRestored(e, scope, u, v, t)
    requires Merged(t, Run(e, EMPTY, u + v[..applied]).table, Run(e, EMPTY, u).table)
    ensures var s := Snapshot(Run(e, EMPTY, u));
            && s.Some?
            && var r := RestoreAt(e, m, s.value, t);
               && r.Some?
               && (SameView(Run(e, r.value, v), Run(e, EMPTY, u + v)) <==>
                   forall ns, l | ns in scope && l in scope[ns] :: RecoversFrom(e, u, v, ns, l, l in Loaded(t, ns)))
  {
    var n, far := Run(e, EMPTY, u), Run(e, EMPTY, u + v[..applied]);
    var a, b := BothSides(e, scope, u, v, applied);
    var c := LoadedTidy(e, scope, a, n, b, far.table, t);
    MergedNames(e, u, v[..applied], t);
    RestoredTidy(e, scope, a, n, m, c, t);
    ReadsAfter(e, scope, u, v, a, n);
    RestoredRuns(e, scope, u, v, applied, a, n, far.table, c, RestoreAt(e, m, Snapshot(n).value, t).value);
    RunConcat(e, EMPTY, u, v);
  }

  lemma RestoredRuns(e: Engine, scope: Policies, u: seq<Command>, v: seq<Command>, applied: nat,
                     a: Policies, n: Node, far: Table, c: Policies, r: Node)
    requires EngineOk(e) && NamesOk(scope.Keys) && AllPermitted(e, scope, v) && applied <= |v|
    requires Tidy(e, scope, a, n) && SkeletonOf(n) == SkeletonRun(e, map[], u) && AllRead(e, scope, a, n, v)
    requires Tidy(e, scope, c, r) && SkeletonOf(r) == SkeletonOf(n) && Merged(r.table, far, n.table)
    requires ReadsRestored(e, scope, u, v, r.table)
    requires forall ns | RegistryKey(ns) in n.table :: RegistryKey(ns) in r.table
    requires forall ns, l :: BitsOf(a, n, ns, l) == BitsRun(e, map[], u, ns, l, ABSENT)
    requires forall ns :: RegistryKey(ns) in n.table <==> NameRun(e, map[], u, ns, false)
    requires forall ns :: RegistryKey(ns) in far <==> NameRun(e, map[], u + v[..applied], ns, false)
    requires forall ns, l :: BitsOf(c, r, ns, l) == Restored(SkeletonOf(n), ns, l in Rules(c, ns))
    requires forall ns, l | ns in scope :: l in Rules(c, ns) <==> l in Loaded(r.table, ns)
    ensures SameView(Run(e, r, v), Run(e, n, v)) <==>
            forall ns, l | ns in scope && l in scope[ns] :: RecoversFrom(e, u, v, ns, l, l in Loaded(r.table, ns))
  {
    forall ns ensures NameRun(e, SkeletonOf(r), v, ns, RegistryKey(ns) in r.table) ==
                      NameRun(e, SkeletonOf(n), v, ns, RegistryKey(ns) in n.table) {
      assert SameAt(r.table, far, RegistryKey(ns)) || SameAt(r.table, n.table, RegistryKey(ns));
      NamesFrom(e, u, v, applied, ns, RegistryKey(ns) in r.table);
    }
    forall ns, l | ns in scope && l in scope[ns] ensures Reads(e, SkeletonOf(r), v, ns, l, BitsOf(c, r, ns, l)) {
      assert BitsOf(c, r, ns, l) == Restored(SkeletonOf(n), ns, l in Loaded(r.table, ns));
    }
    RunsAgree(e, scope, c, r, a, n, v);
    forall ns, l | ns in scope ensures RecoversFrom(e, u, v, ns, l, l in Loaded(r.table, ns)) <==>
      BitsRun(e, SkeletonOf(r), v, ns, l, BitsOf(c, r, ns, l)) == BitsRun(e, SkeletonOf(n), v, ns, l, BitsOf(a, n, ns, l)) {
      assert BitsOf(c, r, ns, l) == Restored(SkeletonOf(n), ns, l in Loaded(r.table, ns));
    }
  }

  /** The row a line is read with when the keys of `newer` have a newer version in the store. */
  function LoadedRow(e: Engine, u: seq<Command>, v: seq<Command>, applied: nat, ns: Bytes, l: Line, newer: set<Bytes>): bool
    requires applied <= |v|
  {
    || BitsRun(e, map[], u + v[..applied], ns, l, ABSENT).row
    || (BitsRun(e, map[], u, ns, l, ABSENT).row && RowKey(ns, l) !in newer)
  }

  lemma RuleIffRow(t: Table, a: Policies, names: set<Bytes>, ns: Bytes, l: Line)
    requires PrefixFree(names) && ns in names && Refines(t, a, names)
    ensures l in Rules(a, ns) <==> WellFormed(l) && RowKey(ns, l) in t
  {
    if WellFormed(l) { PresentIffRule(t, a, names, ns, l); }
    if l in Rules(a, ns) { assert Stores(t, RowKey(ns, l), ns, l); }
  }

  /** Read off the two logs: a line has a row after the load if the survivors have it, or the
      snapshot has it and the store nothing newer. */
  lemma LoadedRows(e: Engine, scope: Policies, u: seq<Command>, v: seq<Command>, applied: nat, newer: set<Bytes>, ns: Bytes, l: Line)
    requires EngineOk(e) && NamesOk(scope.Keys) && AllPermitted(e, scope, u) && AllPermitted(e, scope, v) && applied <= |v|
    requires ReadsAlone(e, scope, u + v) && ns in scope && l in scope[ns]
    ensures var t := LoadedOver(Run(e, EMPTY, u + v[..applied]).table, Run(e, EMPTY, u).table, newer);
            l in Loaded(t, ns) <==> LoadedRow(e, u, v, applied, ns, l, newer)
  {
    var n, far := Run(e, EMPTY, u), Run(e, EMPTY, u + v[..applied]);
    var t := LoadedOver(far.table, n.table, newer);
    var a, b := BothSides(e, scope, u, v, applied);
    MergedLoad(far.table, n.table, newer);
    var c := LoadedTidy(e, scope, a, n, b, far.table, t);
    RuleIffRow(n.table, a, scope.Keys, ns, l);
    RuleIffRow(far.table, b, scope.Keys, ns, l);
    RuleIffRow(t, c, scope.Keys, ns, l);
    assert BitsOf(a, n, ns, l) == BitsRun(e, map[], u, ns, l, ABSENT);
  }

  /** Restart from a snapshot with what Badger's versions leave: the condition by the two logs and the
      keys that have a newer version in the store. */
  lemma WarmRestartExact(e: Engine, scope: Policies, u: seq<Command>, v: seq<Command>, applied: nat, meta: Metadata, newer: set<Bytes>)
    requires EngineOk(e) && NamesOk(scope.Keys) && AllPermitted(e, scope, u) && AllPermitted(e, scope, v)
    requires applied <= |v| && AllModelled(Run(e, EMPTY, u))
    requires var far, near := Run(e, EMPTY, u + v[..applied]).table, Run(e, EMPTY, u).table;
             ReadsAlone(e, scope, u + v) && ReadsRestored(e, scope, u, v, LoadedOver(far, near, newer))
    ensures var far, near := Run(e, EMPTY, u + v[..applied]).table, Run(e, EMPTY, u).table;
            var s := Snapshot(Run(e, EMPTY, u));
            && s.Some?
            && var r := RestoreAt(e, Node(far, map[], meta), s.value, LoadedOver(far, near, newer));
               && r.Some?
               && (SameView(Run(e, r.value, v), Run(e, EMPTY, u + v)) <==>
                   forall ns, l | ns in scope && l in scope[ns] ::
                     RecoversFrom(e, u, v, ns, l, LoadedRow(e, u, v, applied, ns, l, newer)))
  {
    var far, near := Run(e, EMPTY, u + v[..applied]).table, Run(e, EMPTY, u).table;
    MergedLoad(far, near, newer);
    MergedRestartExact(e, scope, u, v, applied, Node(far, map[], meta), LoadedOver(far, near, newer));
    forall ns, l | ns in scope && l in scope[ns]
      ensures l in Loaded(LoadedOver(far, near, newer), ns) <==> LoadedRow(e, u, v, applied, ns, l, newer)
    {
      LoadedRows(e, scope, u, v, applied, newer, ns, l);
    }
  }

  // ---- reads during replay ----

  /** Memory while the log is replayed, against memory after the same entries alone. */
  lemma MidReplayExact(e: Engine, scope: Policies, log: seq<Command>, applied: nat, k: nat)
    requires EngineOk(e) && NamesOk(scope.Keys) && AllPermitted(e, scope, log) && applied <= |log| && k <= |log|
    requires ReadsAlone(e, scope, log) && ReadsReplayed(e, scope, log, applied, k)
    ensures var r0 := Node(Run(e, EMPTY, log[..applied]).table, map[], map[]);
            Run(e, r0, log[..k]).enforcers == Run(e, EMPTY, log[..k]).enforcers <==>
            forall ns, l | ns in scope && l in scope[ns] ::
              BitsRun(e, map[], log[..k], ns, l, Surviving(e, log, applied, ns, l)).mem ==
              BitsRun(e, map[], log[..k], ns, l, ABSENT).mem
  {
    var r0 := Node(Run(e, EMPTY, log[..applied]).table, map[], map[]);
    var u := log[..k];
    var a := CrashedTidy(e, scope, log, applied, map[]);
    ReadsAlonePrefix(e, scope, log, k);
    RunLines(e, scope, a, r0, u);
    var b := EmptyLines(e, scope, u);
    var r, n := Run(e, r0, u), Run(e, EMPTY, u);
    EnforcersAgree(e, scope, RowsRun(e, a, r0, u), r, b, n);
    forall ns, l
      ensures (ns in r.enforcers && l in r.enforcers[ns].rules) == BitsRun(e, map[], u, ns, l, Surviving(e, log, applied, ns, l)).mem
      ensures (ns in n.enforcers && l in n.enforcers[ns].rules) == BitsRun(e, map[], u, ns, l, ABSENT).mem
    {
      assert BitsOf(RowsRun(e, a, r0, u), r, ns, l).mem == BitsRun(e, map[], u, ns, l, BitsOf(a, r0, ns, l)).mem;
      assert BitsOf(b, n, ns, l).mem == BitsRun(e, map[], u, ns, l, ABSENT).mem;
    }
  }
}
