/** What every command keeps: memory, rows and registry tell the same story. */
module Coherence {
  import opened ByteStrings
  import opened Keys
  import opened Badger
  import opened Adapter
  import opened Refinement
  import opened Filtering
  import opened Fsm
  import opened Casbin

  /** Printing a parsed model and parsing it again gives it back. */
  ghost predicate EngineOk(e: Engine) {
    forall text, m | e.parse(text) == Some(m) :: e.parse(m) == Some(m)
  }

  /** Prefix-free names that no stored key can be mistaken for. */
  ghost predicate NamesOk(names: set<Bytes>) {
    PrefixFree(names) && forall n | n in names :: n != [] && n[0] > 1
  }

  /** A line that keeps its key apart and survives the comma join. */
  ghost predicate Sound(e: Engine, l: Line) { WellFormed(l) && e.load(l) == l }

  ghost predicate AllSound(e: Engine, lines: seq<Line>) { forall i | 0 <= i < |lines| :: Sound(e, lines[i]) }

  /** Commands over the names of `scope` that add only its lines there: everything but batch
      updates. */
  ghost predicate Permitted(e: Engine, scope: Policies, c: Command) {
    match c
    case CreateNamespace(ns) => ns in scope
    case SetModel(ns, _) => ns in scope
    case AddPolicies(ns, ptype, rules) =>
      ns in scope && AllSound(e, Convert(ptype, rules)) && ToLineSet(Convert(ptype, rules)) <= scope[ns]
    case RemovePolicies(ns, ptype, rules) => ns in scope && AllSound(e, Convert(ptype, rules))
    case UpdatePolicies(_, _, _, _) => false
    case RemoveFiltered(ns, _, _, _) => ns in scope && FiltersByField(e)
    case _ => true
  }

  /** The key scan of a filter and Casbin agree on every line. */
  ghost predicate Agrees(lines: set<Line>, ns: Bytes, ptype: Bytes, index: int, values: seq<Bytes>) {
    forall l | l in lines :: MemMatch(l, ptype, index, values) <==> FilterMatch(RowKey(ns, l), ns, ptype, index, values)
  }

  /** Of the permitted commands, those whose filters Casbin can compare with every line, and that
      treat memory and rows alike. */
  ghost predicate Allowed(e: Engine, scope: Policies, c: Command) {
    && Permitted(e, scope, c)
    && (c.RemoveFiltered? ==>
          AllReadable(scope[c.ns], c.ptype, c.index, c.values) && Agrees(scope[c.ns], c.ns, c.ptype, c.index, c.values))
  }

  ghost predicate AllPermitted(e: Engine, scope: Policies, log: seq<Command>) {
    forall i | 0 <= i < |log| :: Permitted(e, scope, log[i])
  }

  ghost predicate AllAllowed(e: Engine, scope: Policies, log: seq<Command>) {
    forall i | 0 <= i < |log| :: Allowed(e, scope, log[i])
  }

  /** The rules are lines of the scope. */
  ghost predicate Inside(a: Policies, scope: Policies) {
    forall ns, l | l in Rules(a, ns) :: l in Rules(scope, ns)
  }

  ghost predicate RegistryRows(t: Table, names: set<Bytes>) {
    forall k | k in t && !(POLICY_PREFIX <= k) :: t[k] == Blank && exists ns :: ns in names && k == RegistryKey(ns)
  }

  ghost predicate RulesLoad(e: Engine, a: Policies, names: set<Bytes>) {
    forall ns, l | ns in names && l in Rules(a, ns) :: e.load(l) == l
  }

  /** An enforcer without a model holds nothing; one with a model is registered and holds the
      namespace's rules. */
  ghost predicate EnforcerOk(e: Engine, t: Table, rules: set<Line>, ns: Bytes, enf: Enforcer) {
    match enf.model
    case None => enf.rules == {}
    case Some(m) => e.parse(m) == Some(m) && RegistryKey(ns) in t && enf.rules == rules
  }

  ghost predicate RowsOk(e: Engine, names: set<Bytes>, a: Policies, t: Table) {
    Refines(t, a, names) && RulesLoad(e, a, names) && RegistryRows(t, names)
  }

  ghost predicate EnforcersOk(e: Engine, names: set<Bytes>, a: Policies, n: Node) {
    forall ns | ns in n.enforcers :: ns in names && EnforcerOk(e, n.table, Rules(a, ns), ns, n.enforcers[ns])
  }

  ghost predicate Coherent(e: Engine, names: set<Bytes>, a: Policies, n: Node) {
    RowsOk(e, names, a, n.table) && EnforcersOk(e, names, a, n)
  }

  // ---- reading back ----

  lemma LoadSetIsRules(e: Engine, t: Table, a: Policies, names: set<Bytes>, ns: Bytes)
    requires PrefixFree(names) && ns in names && Refines(t, a, names) && RulesLoad(e, a, names)
    ensures LoadSet(e, t, ns) == Rules(a, ns)
  {
    LoadedIsRules(t, a, names, ns);
    var lines := Loaded(t, ns);
    forall l | l in lines ensures e.load(l) == l {
      assert l in ToLineSet(lines);
    }
    forall l | l in Rules(a, ns) ensures l in LoadSet(e, t, ns) {
      assert l in ToLineSet(lines);
      assert l == e.load(l);
    }
  }

  // ---- the registry ----

  lemma NameIsNoKey(names: set<Bytes>, t: Table, a: Policies, ns: Bytes)
    requires NamesOk(names) && ns in names && Refines(t, a, names) && RegistryRows(t, names)
    ensures ns !in t
  {}

  /** Registering a name changes no policy row. */
  lemma RegisterKeeps(names: set<Bytes>, t: Table, a: Policies, ns: Bytes)
    requires NamesOk(names) && ns in names && Refines(t, a, names) && RegistryRows(t, names)
    ensures Register(t, ns) == t[RegistryKey(ns) := Blank]
    ensures Refines(Register(t, ns), a, names) && RegistryRows(Register(t, ns), names)
  {
    NameIsNoKey(names, t, a, ns);
    var key, u := RegistryKey(ns), Register(t, ns);
    assert key[0] == 0;
    forall m, l | m in names && l in Rules(a, m) ensures Stores(u, RowKey(m, l), m, l) {
      assert Stores(t, RowKey(m, l), m, l);
      assert RowKey(m, l)[0] == 1;
    }
    forall k | k in u && POLICY_PREFIX <= k
      ensures exists m, l :: m in names && l in Rules(a, m) && Stores(u, k, m, l)
    {
      var m, l :| m in names && l in Rules(a, m) && Stores(t, k, m, l);
      assert Stores(u, k, m, l);
    }
  }

  /** Adapter calls leave registry rows alone. */
  lemma CallKeepsRegistry(t: Table, names: set<Bytes>, c: Call)
    requires RegistryRows(t, names)
    ensures RegistryRows(Step(t, c), names)
    ensures forall ns :: RegistryKey(ns) in t <==> RegistryKey(ns) in Step(t, c)
  {
    var u := Step(t, c);
    forall k | k in u && !(POLICY_PREFIX <= k)
      ensures u[k] == Blank && exists ns :: ns in names && k == RegistryKey(ns)
    {
      NotBehind(c.ns, k);
      StepFootprint(t, c, k);
    }
    forall ns ensures RegistryKey(ns) in t <==> RegistryKey(ns) in u {
      assert RegistryKey(ns)[0] == 0;
      NotBehind(c.ns, RegistryKey(ns));
      StepFootprint(t, c, RegistryKey(ns));
    }
  }

  lemma NotBehind(ns: Bytes, k: Bytes)
    requires !(POLICY_PREFIX <= k)
    ensures !(WithPrefix(ns, []) <= k)
  {}

  // ---- the commands ----

  lemma {:induction false} MissingSet(lines: seq<Line>, rules: set<Line>)
    ensures ToLineSet(Missing(lines, rules)) == ToLineSet(lines) - rules
  {
    if lines != [] {
      var n := |lines| - 1;
      MissingSet(lines[..n], rules);
      assert lines == lines[..n] + [lines[n]];
      assert ToLineSet(lines) == ToLineSet(lines[..n]) + {lines[n]};
      var tail: seq<Line> := if lines[n] in rules then [] else [lines[n]];
      assert ToLineSet(Missing(lines, rules)) == ToLineSet(Missing(lines[..n], rules)) + ToLineSet(tail);
    }
  }

  lemma MissingSound(e: Engine, lines: seq<Line>, rules: set<Line>)
    requires AllSound(e, lines)
    ensures AllWellFormed(Missing(lines, rules))
  {}

  /** The rules of every namespace after a command. */
  function AbsApply(a: Policies, n: Node, c: Command): Policies {
    match c
    case AddPolicies(ns, ptype, rules) =>
      if ns in n.enforcers && n.enforcers[ns].model.Some?
      then a[ns := Rules(a, ns) + ToLineSet(Convert(ptype, rules))] else a
    case RemovePolicies(ns, ptype, rules) =>
      if ns in n.enforcers && n.enforcers[ns].model.Some?
      then a[ns := Rules(a, ns) - ToLineSet(Convert(ptype, rules))] else a
    case RemoveFiltered(ns, ptype, index, values) =>
      if ns in n.enforcers && n.enforcers[ns].model.Some? && values != []
      then a[ns := Keep(Rules(a, ns), l => FilterMatch(RowKey(ns, l), ns, ptype, index, values))] else a
    case _ => a
  }

  lemma ApplyInside(e: Engine, scope: Policies, a: Policies, n: Node, c: Command)
    requires Inside(a, scope) && Permitted(e, scope, c)
    ensures Inside(AbsApply(a, n, c), scope)
  {}

  /** Whatever is in memory, the rows gain the lines that are not. */
  lemma AddMissingRows(e: Engine, names: set<Bytes>, a: Policies, t: Table, ns: Bytes, lines: seq<Line>, known: set<Line>)
    requires NamesOk(names) && RowsOk(e, names, a, t) && ns in names && AllSound(e, lines)
    ensures RowsOk(e, names, a[ns := Rules(a, ns) + (ToLineSet(lines) - known)], PutLines(t, ns, Missing(lines, known)))
  {
    var b := a[ns := Rules(a, ns) + (ToLineSet(lines) - known)];
    var call := Add(ns, Missing(lines, known));
    MissingSet(lines, known);
    MissingSound(e, lines, known);
    StepRefines(t, a, names, call);
    assert SpecStep(a, call) == b;
    CallKeepsRegistry(t, names, call);
    forall m, l | m in names && l in Rules(b, m) ensures e.load(l) == l {
      if l !in Rules(a, m) { assert l in ToLineSet(lines); assert l in lines; }
    }
  }

  lemma AddRows(e: Engine, names: set<Bytes>, a: Policies, t: Table, ns: Bytes, lines: seq<Line>)
    requires NamesOk(names) && RowsOk(e, names, a, t) && ns in names && AllSound(e, lines)
    ensures RowsOk(e, names, a[ns := Rules(a, ns) + ToLineSet(lines)], PutLines(t, ns, Missing(lines, Rules(a, ns))))
  {
    AddMissingRows(e, names, a, t, ns, lines, Rules(a, ns));
    assert Rules(a, ns) + (ToLineSet(lines) - Rules(a, ns)) == Rules(a, ns) + ToLineSet(lines);
  }

  lemma RemoveRows(e: Engine, names: set<Bytes>, a: Policies, t: Table, ns: Bytes, lines: seq<Line>)
    requires NamesOk(names) && RowsOk(e, names, a, t) && ns in names && AllSound(e, lines)
    ensures RowsOk(e, names, a[ns := Rules(a, ns) - ToLineSet(lines)], EraseLines(t, ns, lines))
  {
    var b := a[ns := Rules(a, ns) - ToLineSet(lines)];
    var call := Remove(ns, lines);
    assert SpecStep(a, call) == b;
    StepRefines(t, a, names, call);
    CallKeepsRegistry(t, names, call);
    assert forall m, l | m in names && l in Rules(b, m) :: l in Rules(a, m);
  }

  /** Only the named enforcer's rules and the rows behind its name have changed. */
  lemma OthersOk(e: Engine, names: set<Bytes>, a: Policies, n: Node, ns: Bytes, c: Call, rules: set<Line>)
    requires EnforcersOk(e, names, a, n) && ns in n.enforcers && n.enforcers[ns].model.Some? && c.ns == ns
    requires RegistryRows(n.table, names)
    ensures EnforcersOk(e, names, a[ns := rules],
              n.(table := Step(n.table, c), enforcers := n.enforcers[ns := n.enforcers[ns].(rules := rules)]))
  {
    CallKeepsRegistry(n.table, names, c);
  }

  lemma AddCoherent(e: Engine, names: set<Bytes>, a: Policies, n: Node, ns: Bytes, lines: seq<Line>)
    requires NamesOk(names) && Coherent(e, names, a, n) && ns in names && AllSound(e, lines)
    requires ns in n.enforcers && n.enforcers[ns].model.Some?
    ensures Coherent(e, names, a[ns := Rules(a, ns) + ToLineSet(lines)], ApplyAdd(n, ns, lines).0)
  {
    AddRows(e, names, a, n.table, ns, lines);
    OthersOk(e, names, a, n, ns, Add(ns, Missing(lines, Rules(a, ns))), Rules(a, ns) + ToLineSet(lines));
  }

  lemma RemoveCoherent(e: Engine, names: set<Bytes>, a: Policies, n: Node, ns: Bytes, lines: seq<Line>)
    requires NamesOk(names) && Coherent(e, names, a, n) && ns in names && AllSound(e, lines)
    requires ns in n.enforcers && n.enforcers[ns].model.Some?
    ensures Coherent(e, names, a[ns := Rules(a, ns) - ToLineSet(lines)], ApplyRemove(n, ns, lines).0)
  {
    RemoveRows(e, names, a, n.table, ns, lines);
    OthersOk(e, names, a, n, ns, Remove(ns, lines), Rules(a, ns) - ToLineSet(lines));
  }

  /** Registering a name keeps the rows, and what is loaded behind it is their rules. */
  lemma Registering(e: Engine, names: set<Bytes>, a: Policies, t: Table, ns: Bytes)
    requires NamesOk(names) && RowsOk(e, names, a, t) && ns in names
    ensures Register(t, ns) == t[RegistryKey(ns) := Blank] && RowsOk(e, names, a, Register(t, ns))
    ensures LoadSet(e, Register(t, ns), ns) == Rules(a, ns)
  {
    RegisterKeeps(names, t, a, ns);
    LoadSetIsRules(e, Register(t, ns), a, names, ns);
  }

  lemma MoreNamesOk(e: Engine, names: set<Bytes>, a: Policies, n: Node, t: Table)
    requires EnforcersOk(e, names, a, n) && forall m :: RegistryKey(m) in n.table ==> RegistryKey(m) in t
    ensures EnforcersOk(e, names, a, n.(table := t))
  {
    forall m | m in n.enforcers ensures m in names && EnforcerOk(e, t, Rules(a, m), m, n.enforcers[m]) {
      assert EnforcerOk(e, n.table, Rules(a, m), m, n.enforcers[m]);
    }
  }

  lemma SetModelCoherent(e: Engine, names: set<Bytes>, a: Policies, n: Node, ns: Bytes, text: Bytes)
    requires EngineOk(e) && NamesOk(names) && Coherent(e, names, a, n) && ns in names
    ensures Coherent(e, names, a, ApplySetModel(e, n, ns, text).0)
  {
    if ns in n.enforcers {
      var t := Register(n.table, ns);
      Registering(e, names, a, n.table, ns);
      MoreNamesOk(e, names, a, n, t);
      if e.parse(text).Some? { assert EnforcerOk(e, t, Rules(a, ns), ns, Enforcer(e.parse(text), Rules(a, ns))); }
    }
  }

  lemma KeepRulesLoad(e: Engine, a: Policies, names: set<Bytes>, ns: Bytes, gone: Line -> bool)
    requires RulesLoad(e, a, names)
    ensures RulesLoad(e, a[ns := Keep(Rules(a, ns), gone)], names)
  {}

  /** A filter reaches no registry row. */
  lemma FilterKeepsRegistryRows(t: Table, names: set<Bytes>, ns: Bytes, ptype: Bytes, index: int, values: seq<Bytes>)
    requires RegistryRows(t, names)
    ensures RegistryRows(EraseFiltered(t, ns, ptype, index, values), names)
    ensures forall m :: RegistryKey(m) in t <==> RegistryKey(m) in EraseFiltered(t, ns, ptype, index, values)
  {
    forall m ensures !FilterMatch(RegistryKey(m), ns, ptype, index, values) {
      assert RegistryKey(m)[0] == 0 && forall k :: WithPrefix(ns, k)[0] == 1;
    }
  }

  lemma FilterRows(e: Engine, names: set<Bytes>, a: Policies, t: Table, ns: Bytes, ptype: Bytes, index: int, values: seq<Bytes>)
    requires NamesOk(names) && RowsOk(e, names, a, t) && ns in names
    ensures RowsOk(e, names, a[ns := Keep(Rules(a, ns), l => FilterMatch(RowKey(ns, l), ns, ptype, index, values))],
                   EraseFiltered(t, ns, ptype, index, values))
  {
    KeyRemoval(t, a, names, ns, ptype, index, values);
    KeepRulesLoad(e, a, names, ns, l => FilterMatch(RowKey(ns, l), ns, ptype, index, values));
    FilterKeepsRegistryRows(t, names, ns, ptype, index, values);
  }

  lemma MemoryIsRules(e: Engine, names: set<Bytes>, a: Policies, n: Node, ns: Bytes)
    requires Coherent(e, names, a, n) && ns in n.enforcers && n.enforcers[ns].model.Some?
    ensures ns in names && n.enforcers[ns].rules == Rules(a, ns)
  {
    assert EnforcerOk(e, n.table, Rules(a, ns), ns, n.enforcers[ns]);
  }

  /** Filtered removal keeps memory and rows coherent when both sides agree on the rules there. */
  lemma FilterCoherent(e: Engine, names: set<Bytes>, a: Policies, n: Node, ns: Bytes, ptype: Bytes, index: int, values: seq<Bytes>)
    requires NamesOk(names) && Coherent(e, names, a, n) && FiltersByField(e) && values != []
    requires ns in n.enforcers && n.enforcers[ns].model.Some?
    requires AllReadable(Rules(a, ns), ptype, index, values) && Agrees(Rules(a, ns), ns, ptype, index, values)
    ensures Coherent(e, names, a[ns := Keep(Rules(a, ns), l => FilterMatch(RowKey(ns, l), ns, ptype, index, values))],
                     ApplyFilter(e, n, ns, ptype, index, values).0)
  {
    var rules := Rules(a, ns);
    MemoryIsRules(e, names, a, n, ns);
    FilterRows(e, names, a, n.table, ns, ptype, index, values);
    FilterKeepsRegistryRows(n.table, names, ns, ptype, index, values);
    KeepSame(rules, l => MemMatch(l, ptype, index, values), l => FilterMatch(RowKey(ns, l), ns, ptype, index, values));
  }

  lemma ApplyCoherent(e: Engine, scope: Policies, a: Policies, n: Node, c: Command)
    requires EngineOk(e) && NamesOk(scope.Keys) && Coherent(e, scope.Keys, a, n) && Inside(a, scope) && Allowed(e, scope, c)
    ensures Coherent(e, scope.Keys, AbsApply(a, n, c), Apply(e, n, c).0) && Inside(AbsApply(a, n, c), scope)
  {
    var names := scope.Keys;
    ApplyInside(e, scope, a, n, c);
    match c
    case SetModel(ns, text) => SetModelCoherent(e, names, a, n, ns, text);
    case AddPolicies(ns, ptype, rules) =>
      if ns in n.enforcers && n.enforcers[ns].model.Some? { AddCoherent(e, names, a, n, ns, Convert(ptype, rules)); }
    case RemovePolicies(ns, ptype, rules) =>
      if ns in n.enforcers && n.enforcers[ns].model.Some? { RemoveCoherent(e, names, a, n, ns, Convert(ptype, rules)); }
    case RemoveFiltered(ns, ptype, index, values) =>
      if ns in n.enforcers && n.enforcers[ns].model.Some? && values != [] { FilterCoherent(e, names, a, n, ns, ptype, index, values); }
    case _ => OtherCoherent(e, scope, a, n, c);
  }

  predicate TouchesNoRule(c: Command) {
    !c.SetModel? && !c.AddPolicies? && !c.RemovePolicies? && !c.RemoveFiltered? && !c.UpdatePolicies?
  }

  lemma OtherCoherent(e: Engine, scope: Policies, a: Policies, n: Node, c: Command)
    requires Coherent(e, scope.Keys, a, n) && Allowed(e, scope, c) && TouchesNoRule(c)
    ensures Coherent(e, scope.Keys, AbsApply(a, n, c), Apply(e, n, c).0)
  {}

  function AbsRun(e: Engine, a: Policies, n: Node, log: seq<Command>): Policies {
    if log == [] then a
    else
      var k := |log| - 1;
      AbsApply(AbsRun(e, a, n, log[..k]), Run(e, n, log[..k]), log[k])
  }

  /** Every run of allowed commands keeps memory and rows coherent. */
  lemma {:induction false} RunCoherent(e: Engine, scope: Policies, a: Policies, n: Node, log: seq<Command>)
    requires EngineOk(e) && NamesOk(scope.Keys) && Coherent(e, scope.Keys, a, n) && Inside(a, scope) && AllAllowed(e, scope, log)
    ensures Coherent(e, scope.Keys, AbsRun(e, a, n, log), Run(e, n, log)) && Inside(AbsRun(e, a, n, log), scope)
  {
    if log != [] {
      var k := |log| - 1;
      RunCoherent(e, scope, a, n, log[..k]);
      ApplyCoherent(e, scope, AbsRun(e, a, n, log[..k]), Run(e, n, log[..k]), log[k]);
    }
  }

  // ---- the scope of a log ----

  /** The lines a log adds to a namespace. */
  function AddedTo(log: seq<Command>, ns: Bytes): set<Line> {
    if log == [] then {}
    else
      var c := log[|log| - 1];
      AddedTo(log[..|log| - 1], ns) + if c.AddPolicies? && c.ns == ns then ToLineSet(Convert(c.ptype, c.rules)) else {}
  }

  function ScopeOf(names: set<Bytes>, log: seq<Command>): Policies { map ns | ns in names :: AddedTo(log, ns) }

  lemma {:induction false} AddedHas(log: seq<Command>, i: nat)
    requires i < |log| && log[i].AddPolicies?
    ensures ToLineSet(Convert(log[i].ptype, log[i].rules)) <= AddedTo(log, log[i].ns)
  {
    var n := |log| - 1;
    if i < n { AddedHas(log[..n], i); }
  }

  /** Over the lines it adds itself, a log without updates and filters is allowed whenever its
      names are known and its lines sound. */
  lemma UnfilteredAllowed(e: Engine, names: set<Bytes>, log: seq<Command>)
    requires forall i | 0 <= i < |log| :: Unfiltered(e, names, log[i])
    ensures AllAllowed(e, ScopeOf(names, log), log)
  {
    forall i | 0 <= i < |log| ensures Allowed(e, ScopeOf(names, log), log[i]) {
      assert Unfiltered(e, names, log[i]);
      if log[i].AddPolicies? { AddedHas(log, i); }
    }
  }

  ghost predicate Unfiltered(e: Engine, names: set<Bytes>, c: Command) {
    match c
    case CreateNamespace(ns) => ns in names
    case SetModel(ns, _) => ns in names
    case AddPolicies(ns, ptype, rules) => ns in names && AllSound(e, Convert(ptype, rules))
    case RemovePolicies(ns, ptype, rules) => ns in names && AllSound(e, Convert(ptype, rules))
    case UpdatePolicies(_, _, _, _) => false
    case RemoveFiltered(_, _, _, _) => false
    case _ => true
  }

  // ---- replies ----

  /** The rules a batch reports as effected are, each once, exactly those memory gains or loses. */
  lemma {:induction false} EffectedExactly(lines: seq<Line>, rules: set<Line>)
    ensures ToLineSet(AddedLines(lines, rules)) == (rules + ToLineSet(lines)) - rules
    ensures ToLineSet(RemovedLines(lines, rules)) == rules - (rules - ToLineSet(lines))
    ensures Distinct(AddedLines(lines, rules)) && Distinct(RemovedLines(lines, rules))
  {
    if lines != [] {
      var n := |lines| - 1;
      var front, l := lines[..n], lines[n];
      EffectedExactly(front, rules);
      assert ToLineSet(lines) == ToLineSet(front) + {l} by { assert lines == front + [l]; }
      SnocDistinct(AddedLines(front, rules), l);
      SnocDistinct(RemovedLines(front, rules), l);
    }
  }

  lemma SnocDistinct(lines: seq<Line>, l: Line)
    requires Distinct(lines)
    ensures ToLineSet(lines + [l]) == ToLineSet(lines) + {l}
    ensures l !in ToLineSet(lines) ==> Distinct(lines + [l])
    ensures lines + [] == lines
  {}
}
