/** The store itself: Apply, Snapshot, Restore and setMetadata working in place on memory and the
    state database, each proved against the state machine (server/store/fsm.go,
    server/store/enforcer.go). */
module Store {
  import opened ByteStrings
  import opened Keys
  import opened Badger
  import opened Adapter
  import opened Refinement
  import opened Fsm
  import opened Coherence
  import opened NodeMetadata
  import opened Lifecycle

  /** The rules of a batch that are not in memory. */
  function MissingRules(ptype: Bytes, rules: seq<seq<Bytes>>, known: set<Line>): (m: seq<seq<Bytes>>)
    ensures |m| <= |rules|
  {
    if rules == [] then []
    else
      var n := |rules| - 1;
      MissingRules(ptype, rules[..n], known) + if [ptype] + rules[n] in known then [] else [rules[n]]
  }

  lemma {:induction false} MissingRulesLines(ptype: Bytes, rules: seq<seq<Bytes>>, known: set<Line>)
    ensures Convert(ptype, MissingRules(ptype, rules, known)) == Missing(Convert(ptype, rules), known)
  {
    if rules != [] {
      var n := |rules| - 1;
      MissingRulesLines(ptype, rules[..n], known);
      assert Convert(ptype, rules)[..n] == Convert(ptype, rules[..n]);
    }
  }

  // ---- Badger's limit on the writes of one transaction ----

  /** How many writes a command asks of its transaction. */
  ghost function WritesOf(n: Node, c: Command): nat {
    match c
    case SetModel(ns, _) => if ns in n.enforcers && ns != [] && ns !in n.table then 1 else 0
    case AddPolicies(ns, ptype, rules) =>
      if Modelled(n, ns) then |Missing(Convert(ptype, rules), n.enforcers[ns].rules)| else 0
    case RemovePolicies(ns, _, rules) => if Modelled(n, ns) then |rules| else 0
    case UpdatePolicies(ns, ptype, olds, news) =>
      if Modelled(n, ns) && |olds| == |news| then ReplaceWrites(n.table, ns, Convert(ptype, olds), Convert(ptype, news)) else 0
    case RemoveFiltered(ns, ptype, index, values) =>
      if Modelled(n, ns) && values != [] then |MatchedKeys(n.table, ns, ptype, index, values)| else 0
    case _ => 0
  }

  /** What becomes of a command whose effect is `after`: within the limit all of it; past the limit
      an error and nothing; and when even the first write is refused, no error, and memory changes
      without its rows. */
  ghost function Persisted(limit: nat, writes: nat, before: Node, after: (Node, Reply)): (Node, Reply) {
    if writes <= limit then after
    else if limit > 0 then (before, Failed(WriteRefused))
    else (after.0.(table := before.table), after.1)
  }

  ghost function Limited(e: Engine, limit: nat, n: Node, c: Command): (Node, Reply) {
    Persisted(limit, WritesOf(n, c), n, Fsm.Apply(e, n, c))
  }

  /** A refused batch leaves memory and rows coherent, unless not even one write is allowed. */
  lemma LimitedCoherent(e: Engine, scope: Policies, a: Policies, limit: nat, n: Node, c: Command)
    requires EngineOk(e) && NamesOk(scope.Keys) && Coherent(e, scope.Keys, a, n) && Inside(a, scope)
    requires Allowed(e, scope, c) && limit > 0
    ensures Coherent(e, scope.Keys, if WritesOf(n, c) <= limit then AbsApply(a, n, c) else a, Limited(e, limit, n, c).0)
  {
    ApplyCoherent(e, scope, a, n, c);
  }

  /** When no write is allowed an addition keeps memory and rows in step exactly if it asks for none. */
  lemma UnwrittenAdd(e: Engine, names: set<Bytes>, a: Policies, n: Node, ns: Bytes, ptype: Bytes, rules: seq<seq<Bytes>>)
    requires NamesOk(names) && Coherent(e, names, a, n) && Modelled(n, ns)
    ensures var c := AddPolicies(ns, ptype, rules);
            var n' := Limited(e, 0, n, c).0;
            ns in n'.enforcers && (n'.enforcers[ns].rules == LoadSet(e, n'.table, ns) <==> WritesOf(n, c) == 0)
  {
    var lines, known := Convert(ptype, rules), n.enforcers[ns].rules;
    assert EnforcerOk(e, n.table, Rules(a, ns), ns, n.enforcers[ns]);
    LoadSetIsRules(e, n.table, a, names, ns);
    MissingSet(lines, known);
    NoneMissing(lines, known);
  }

  lemma NoneMissing(lines: seq<Line>, known: set<Line>)
    requires ToLineSet(Missing(lines, known)) == ToLineSet(lines) - known
    ensures Missing(lines, known) == [] <==> known + ToLineSet(lines) == known
  {
    var m := Missing(lines, known);
    if m != [] { assert m[0] in ToLineSet(m); }
  }

  lemma RegisterLoads(e: Engine, t: Table, ns: Bytes, m: Bytes)
    ensures LoadSet(e, Register(t, ns), m) == LoadSet(e, t, m)
  {
    forall k | WithPrefix(m, []) <= k ensures SameAt(Register(t, ns), t, k) {
      assert RegistryKey(ns)[0] == 0 && WithPrefix(m, [])[0] == 1;
    }
    LoadedLocal(Register(t, ns), t, m);
  }

  /** The enforcers rebuilt from the first names of the registry scan, if all their models parse. */
  ghost function Rebuild(e: Engine, t: Table, models: map<Bytes, Bytes>, names: seq<Bytes>): Option<map<Bytes, Enforcer>> {
    if names == [] then Some(map[])
    else
      var name := names[|names| - 1];
      match Rebuild(e, t, models, names[..|names| - 1])
      case None => None
      case Some(m) =>
        if name !in models then Some(m)
        else if name == [] || e.parse(models[name]).None? then None
        else Some(m[name := Enforcer(e.parse(models[name]), LoadSet(e, t, name))])
  }

  lemma {:induction false} RebuildFails(e: Engine, t: Table, models: map<Bytes, Bytes>, names: seq<Bytes>, i: nat)
    requires i <= |names| && Rebuild(e, t, models, names[..i]).None?
    ensures Rebuild(e, t, models, names).None?
    decreases |names| - i
  {
    if i == |names| {
      assert names[..i] == names;
    } else {
      assert names[..i + 1][..i] == names[..i];
      RebuildFails(e, t, models, names, i + 1);
    }
  }

  /** The rebuilt map, name by name. */
  lemma {:induction false} RebuildHas(e: Engine, t: Table, models: map<Bytes, Bytes>, names: seq<Bytes>)
    ensures var m := Rebuild(e, t, models, names);
            && (m.Some? <==> forall ns | ns in names && ns in models :: ns != [] && e.parse(models[ns]).Some?)
            && (m.Some? ==> forall ns :: ns in m.value <==> ns in names && ns in models)
            && (m.Some? ==> forall ns | ns in m.value :: m.value[ns] == Enforcer(e.parse(models[ns]), LoadSet(e, t, ns)))
  {
    if names != [] {
      var k := |names| - 1;
      RebuildHas(e, t, models, names[..k]);
      assert forall ns :: ns in names <==> ns in names[..k] || ns == names[k];
    }
  }

  lemma BlankLoaded(t: Table, u: Table, newer: set<Bytes>)
    requires BlankRegistry(t) && BlankRegistry(u)
    ensures BlankRegistry(LoadedOver(t, u, newer))
  {}

  lemma BlankNames(t: Table)
    requires BlankRegistry(t)
    ensures forall i | 0 <= i < |RegisteredNames(t)| ::
              RegistryKey(RegisteredNames(t)[i]) in t && t[RegistryKey(RegisteredNames(t)[i])] == Blank
  {
    RegisteredNamesComplete(t);
    var names := RegisteredNames(t);
    forall i | 0 <= i < |names| ensures RegistryKey(names[i]) in t && t[RegistryKey(names[i])] == Blank {
      assert names[i] in names;
    }
  }

  /** The scan rebuilds what Restore promises, whatever rows the load left. */
  lemma RebuildIsRestore(e: Engine, n: Node, snap: Snap, t: Table)
    ensures RestoreAt(e, n, snap, t) ==
            match Rebuild(e, t, snap.models, RegisteredNames(t))
            case None => None
            case Some(m) => Some(n.(table := t, enforcers := m))
  {
    var names := RegisteredNames(t);
    RebuildHas(e, t, snap.models, names);
    RegisteredNamesComplete(t);
    var m := Rebuild(e, t, snap.models, names);
    RestorableNames(t, snap, names);
    if m.Some? { RebuiltIsRestored(e, n, snap, t, m.value); }
  }

  lemma RestorableNames(t: Table, snap: Snap, names: seq<Bytes>)
    requires forall ns :: ns in names <==> RegistryKey(ns) in t
    ensures forall ns :: Restorable(t, snap, ns) <==> ns in names && ns in snap.models
  {}

  lemma RebuiltIsRestored(e: Engine, n: Node, snap: Snap, t: Table, m: map<Bytes, Enforcer>)
    requires forall ns | Restorable(t, snap, ns) :: ns != [] && e.parse(snap.models[ns]).Some?
    requires forall ns :: ns in m <==> Restorable(t, snap, ns)
    requires forall ns | ns in m && ns in snap.models :: m[ns] == Enforcer(e.parse(snap.models[ns]), LoadSet(e, t, ns))
    ensures RestoreAt(e, n, snap, t) == Some(n.(table := t, enforcers := m))
  {
    assert m == map ns | ns in snap.models && Restorable(t, snap, ns) ::
      Enforcer(e.parse(snap.models[ns]), LoadSet(e, t, ns));
  }

  class Store {
    const engine: Engine
    const db: BadgerStore
    var enforcers: map<Bytes, Enforcer>
    var meta: Metadata

    ghost function State(): Node
      reads this, db
    {
      Node(db.table, enforcers, meta)
    }

    constructor (engine: Engine, limit: nat)
      ensures State() == EMPTY && fresh(db) && this.engine == engine && db.limit == limit
    {
      this.engine := engine;
      db := new BadgerStore(limit);
      enforcers, meta := map[], map[];
    }

    /** Apply: dispatch on the command. */
    method Apply(c: Command) returns (reply: Reply)
      modifies this`enforcers, this`meta, db`table
      ensures (State(), reply) == Limited(engine, db.limit, old(State()), c)
    {
      match c
      case ListNamespaces =>
        var names := db.Namespaces();
        reply := Names(names);
      case PrintModel(ns) =>
        if ns !in enforcers { return Failed(NamespaceNotExist); }
        if enforcers[ns].model.None? { return NoModel; }
        reply := ModelText(enforcers[ns].model.value);
      case ListPolicies(ns, page) =>
        var p := PageOf(page);
        var listing := Paging.ListRows(db.table, ns, p.cursor, p.skip, p.limit, p.reverse);
        reply := Policies(listing);
      case EnforceRequest(ns, params) =>
        if ns !in enforcers { return Failed(NamespaceNotExist); }
        reply := Decision(engine.decide(enforcers[ns].model, enforcers[ns].rules, params));
      case CreateNamespace(ns) =>
        if ns in enforcers { return Failed(NamespaceExisted); }
        enforcers := enforcers[ns := Enforcer(None, {})];
        reply := Ack;
      case SetModel(ns, text) => reply := SetModelText(ns, text);
      case AddPolicies(ns, ptype, rules) => reply := AddRules(ns, ptype, rules);
      case RemovePolicies(ns, ptype, rules) => reply := RemoveRules(ns, ptype, rules);
      case UpdatePolicies(ns, ptype, olds, news) => reply := UpdateRules(ns, ptype, olds, news);
      case RemoveFiltered(ns, ptype, index, values) => reply := FilterRules(ns, ptype, index, values);
      case MetadataSet(id, data) =>
        if id !in meta { meta := meta[id := map[]]; }
        meta := meta[id := meta[id] + data];
        assert meta == MergeMeta(old(meta), id, data);
        reply := Ack;
      case MetadataDelete(id) =>
        meta := meta - {id};
        reply := Ack;
      case Undecodable(add) => reply := Failed(if add then NamespaceNotExist else UnmarshalFailed);
      case Unhandled => reply := Failed(UnhandledCommand);
    }

    method SetModelText(ns: Bytes, text: Bytes) returns (reply: Reply)
      modifies this`enforcers, db`table
      ensures (State(), reply) == Limited(engine, db.limit, old(State()), SetModel(ns, text))
    {
      if ns !in enforcers { return Failed(NamespaceNotExist); }
      RegisterLoads(engine, db.table, ns, ns);
      var adapter := new Adapter(db, ns);
      var ok := adapter.Init();
      if !ok { return Failed(EmptyName); }
      var model := engine.parse(text);
      if model.None? { return Failed(BadModel); }
      var lines := adapter.LoadPolicy();
      enforcers := enforcers[ns := Enforcer(model, set l | l in lines :: engine.load(l))];
      reply := Ack;
    }

    method AddRules(ns: Bytes, ptype: Bytes, rules: seq<seq<Bytes>>) returns (reply: Reply)
      modifies this`enforcers, db`table
      ensures (State(), reply) == Limited(engine, db.limit, old(State()), AddPolicies(ns, ptype, rules))
    {
      if ns !in enforcers { return Failed(NamespaceNotExist); }
      var enf := enforcers[ns];
      if enf.model.None? { return Failed(ModelUnsetYet); }
      var lines := Convert(ptype, rules);
      var adapter := new Adapter(db, ns);
      MissingRulesLines(ptype, rules, enf.rules);
      var err := adapter.AddPolicies(ptype, MissingRules(ptype, rules, enf.rules));
      if err { return Failed(WriteRefused); }
      enforcers := enforcers[ns := enf.(rules := enf.rules + ToLineSet(lines))];
      reply := Effected(AddedLines(lines, enf.rules));
    }

    method RemoveRules(ns: Bytes, ptype: Bytes, rules: seq<seq<Bytes>>) returns (reply: Reply)
      modifies this`enforcers, db`table
      ensures (State(), reply) == Limited(engine, db.limit, old(State()), RemovePolicies(ns, ptype, rules))
    {
      if ns !in enforcers { return Failed(NamespaceNotExist); }
      var enf := enforcers[ns];
      if enf.model.None? { return Crashed; }
      var lines := Convert(ptype, rules);
      var adapter := new Adapter(db, ns);
      var err := adapter.RemovePolicies(ptype, rules);
      if err { return Failed(WriteRefused); }
      enforcers := enforcers[ns := enf.(rules := enf.rules - ToLineSet(lines))];
      reply := Effected(RemovedLines(lines, enf.rules));
    }

    method UpdateRules(ns: Bytes, ptype: Bytes, olds: seq<seq<Bytes>>, news: seq<seq<Bytes>>) returns (reply: Reply)
      modifies this`enforcers, db`table
      ensures (State(), reply) == Limited(engine, db.limit, old(State()), UpdatePolicies(ns, ptype, olds, news))
    {
      if ns !in enforcers { return Failed(NamespaceNotExist); }
      var enf := enforcers[ns];
      if enf.model.None? { return Crashed; }
      var adapter := new Adapter(db, ns);
      var err := adapter.UpdatePolicies(ptype, olds, news);
      if err { return Failed(WriteRefused); }
      var (rules, effected) := engine.update(enf.rules, Convert(ptype, olds), Convert(ptype, news));
      enforcers := enforcers[ns := enf.(rules := rules)];
      reply := Updated(effected);
    }

    /** The values come from a decoded message, where an empty list is nil. */
    method FilterRules(ns: Bytes, ptype: Bytes, index: int, values: seq<Bytes>) returns (reply: Reply)
      modifies this`enforcers, db`table
      ensures (State(), reply) == Limited(engine, db.limit, old(State()), RemoveFiltered(ns, ptype, index, values))
    {
      if ns !in enforcers { return Failed(NamespaceNotExist); }
      var enf := enforcers[ns];
      if enf.model.None? { return Crashed; }
      var adapter := new Adapter(db, ns);
      var outcome := adapter.RemoveFilteredPolicy(ptype, index, if values == [] then None else Some(values));
      if outcome.NoValues? { return Failed(EmptyFilter); }
      if outcome.err { return Failed(WriteRefused); }
      var (rules, removed) := engine.filter(enf.rules, ptype, index, values);
      enforcers := enforcers[ns := enf.(rules := rules)];
      reply := Effected(removed);
    }

    /** Snapshot: the rows, the printed model of every enforcer, and the metadata. */
    method Snapshot() returns (snap: Option<Snap>)
      ensures snap == Fsm.Snapshot(State())
    {
      var rows := db.Backup();
      var models: map<Bytes, Bytes> := map[];
      var rest := enforcers.Keys;
      while rest != {}
        invariant rest <= enforcers.Keys && models.Keys == enforcers.Keys - rest
        invariant forall ns | ns in models :: enforcers[ns].model == Some(models[ns])
      {
        var ns :| ns in rest;
        if enforcers[ns].model.None? { return None; }
        models := models[ns := enforcers[ns].model.value];
        rest := rest - {ns};
      }
      assert models == map ns | ns in enforcers :: enforcers[ns].model.value;
      snap := Some(Snap(rows, models, meta));
    }

    /** Restore: load the rows, forget the enforcers, rebuild them namespace by namespace. Which keys
        have a newer version in the store is Badger's to tell. */
    method Restore(snap: Snap, newer: set<Bytes>) returns (ok: bool)
      requires BlankRegistry(db.table) && BlankRegistry(snap.table)
      modifies this`enforcers, db`table
      ensures var r := RestoreAt(engine, old(State()), snap, LoadedOver(old(db.table), snap.table, newer));
              (ok <==> r.Some?) && (ok ==> State() == r.value)
    {
      ghost var n := State();
      BlankLoaded(db.table, snap.table, newer);
      db.Load(snap.table, newer);
      BlankNames(db.table);
      enforcers := map[];
      var names := db.Namespaces();
      ok := RebuildEnforcers(snap.models, names);
      RebuildIsRestore(engine, n, snap, db.table);
    }

    /** The loop of Restore over the registered names. */
    method RebuildEnforcers(models: map<Bytes, Bytes>, names: seq<Bytes>) returns (ok: bool)
      requires enforcers == map[]
      requires forall i | 0 <= i < |names| :: RegistryKey(names[i]) in db.table && db.table[RegistryKey(names[i])] == Blank
      modifies this`enforcers, db`table
      ensures db.table == old(db.table)
      ensures ok <==> Rebuild(engine, db.table, models, names).Some?
      ensures ok ==> Rebuild(engine, db.table, models, names) == Some(enforcers)
    {
      ghost var t := db.table;
      var i := 0;
      while i < |names|
        invariant i <= |names| && db.table == t
        invariant Rebuild(engine, t, models, names[..i]) == Some(enforcers)
      {
        var name := names[i];
        assert names[..i + 1][..i] == names[..i];
        if name in models {
          ok := RestoreOne(name, models[name]);
          if !ok {
            RebuildFails(engine, t, models, names, i + 1);
            return;
          }
        }
        i := i + 1;
      }
      assert names[..|names|] == names;
      ok := true;
    }

    method RestoreOne(name: Bytes, text: Bytes) returns (ok: bool)
      requires RegistryKey(name) in db.table && db.table[RegistryKey(name)] == Blank
      modifies this`enforcers, db`table
      ensures db.table == old(db.table)
      ensures ok <==> name != [] && engine.parse(text).Some?
      ensures ok ==> enforcers == old(enforcers)[name := Enforcer(engine.parse(text), LoadSet(engine, db.table, name))]
    {
      var adapter := new Adapter(db, name);
      ok := adapter.Init();
      if !ok { return; }
      var model := engine.parse(text);
      if model.None? { return false; }
      var lines := adapter.LoadPolicy();
      enforcers := enforcers[name := Enforcer(model, set l | l in lines :: engine.load(l))];
    }

    /** setMetadata: nothing is written when the local data already reads as the new data. */
    method SetMetadata(id: Bytes, md: map<Bytes, Bytes>) returns (skipped: bool)
      modifies this`enforcers, this`meta, db`table
      ensures skipped <==> UpToDate(old(meta), id, md)
      ensures State() == if skipped then old(State()) else Fsm.Apply(engine, old(State()), MetadataSet(id, md)).0
    {
      skipped := id in meta;
      if skipped {
        var rest := md.Keys;
        while rest != {} && skipped
          invariant rest <= md.Keys && meta == old(meta) && db.table == old(db.table) && enforcers == old(enforcers)
          invariant skipped <==> forall k | k in md.Keys - rest :: Lookup(meta, id, k) == md[k]
          decreases |rest|
        {
          var k :| k in rest;
          rest := rest - {k};
          skipped := (if k in meta[id] then meta[id][k] else []) == md[k];
        }
      }
      if !skipped {
        var _ := Apply(MetadataSet(id, md));
      }
    }
  }
}
